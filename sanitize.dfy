/** The string rewriters of src/index.ts: the HTML sanitizer `cleanHtml`,
    `normalizeLineTerminators`, `escapeHtml` and the strip of a leading
    `ChatGPT -` from a page title. Each global regular-expression replacement
    is written out as the left-to-right scan the JavaScript engine performs:
    try to match at the current position; on a match drop it and resume after
    it, otherwise keep one character and move on. */
module Sanitize {
  import opened Text

  // ---------------------------------------------------------------------
  // cleanHtml

  /** The four patterns `cleanHtml` removes:
      `/<TAG[^>]*data-testid="webpage-citation-pill"[^>]*>[\s\S]*?<\/TAG>/gi`
      for TAG in `span` and `a`, and `/\sATTR="\d+"/g` for ATTR in
      `data-start` and `data-end`. */
  datatype Pattern = CitationPill(tag: string) | NumericAttr(attr: string)

  const PillMarker: string := "data-testid=\"webpage-citation-pill\""

  /** The first index `j >= i` where `c` stands. */
  function IndexOf(s: string, c: char, i: nat): (r: Option<nat>)
    decreases |s| - i
    ensures r.Some? ==> i <= r.value < |s| && s[r.value] == c
    ensures r.Some? ==> forall j :: i <= j < r.value ==> s[j] != c
    ensures r.None? ==> forall j :: i <= j < |s| ==> s[j] != c
  {
    if i >= |s| then None else if s[i] == c then Some(i) else IndexOf(s, c, i + 1)
  }

  /** The first index `j >= i` where `p` occurs, ignoring ASCII case. */
  function IndexOfIgnoreCase(s: string, p: string, i: nat): (r: Option<nat>)
    decreases |s| - i
    ensures r.Some? ==> i <= r.value <= |s| && StartsWithIgnoreCase(s[r.value..], p)
    ensures r.Some? ==> forall j :: i <= j < r.value ==> !StartsWithIgnoreCase(s[j..], p)
    ensures r.None? ==> forall j :: i <= j <= |s| ==> !StartsWithIgnoreCase(s[j..], p)
  {
    if i > |s| then None
    else if StartsWithIgnoreCase(s[i..], p) then Some(i)
    else IndexOfIgnoreCase(s, p, i + 1)
  }

  /** The number of leading characters of `s` that satisfy `IsDigit`. */
  function DigitRun(s: string): (n: nat)
    ensures n <= |s|
    ensures forall i :: 0 <= i < n ==> IsDigit(s[i])
    ensures n < |s| ==> !IsDigit(s[n])
  {
    if s != [] && IsDigit(s[0]) then 1 + DigitRun(s[1..]) else 0
  }

  /** The text after `<TAG` in `s`, from index `from`, is laid out as
      `[^>]*MARKER[^>]*>[\s\S]*?CLOSE` ending at index `n`: `gt` is the first
      `>`, the marker at `m` lies wholly before it, and the closing tag ends
      the match and starts nowhere earlier after `gt`. */
  ghost predicate PillLayout(s: string, from: nat, close: string, gt: nat, m: nat, n: nat)
  {
    && from <= gt < |s| && s[gt] == '>'
    && (forall j :: from <= j < gt ==> s[j] != '>')
    && from <= m && m + |PillMarker| <= gt && StartsWithIgnoreCase(s[m..], PillMarker)
    && |close| <= n <= |s| && gt < n - |close| && StartsWithIgnoreCase(s[n - |close|..], close)
    && (forall j :: gt < j < n - |close| ==> !StartsWithIgnoreCase(s[j..], close))
  }

  /** `PillLayout` right after `<TAG`, closed by `</TAG>`. */
  ghost predicate TagLayout(s: string, tag: string, gt: nat, m: nat, n: nat)
  {
    PillLayout(s, |tag| + 1, "</" + tag + ">", gt, m, n)
  }

  /** The rest of a citation-pill match once `<TAG` has matched at the start
      of `s`: the tag runs to the first `>`, must hold the marker attribute,
      and the element ends at the first closing tag after it. */
  function PillLength(s: string, from: nat, close: string): (n: nat)
    ensures n <= |s|
    ensures n > 0 ==> |close| <= n && StartsWithIgnoreCase(s[n - |close|..], close)
    ensures n > 0 ==> exists m :: from <= m && m + |PillMarker| < n - |close| && StartsWithIgnoreCase(s[m..], PillMarker)
  {
    match IndexOf(s, '>', from)
    case None => 0
    case Some(gt) =>
      match IndexOfIgnoreCase(s, PillMarker, from)
      case None => 0
      case Some(m) =>
        if gt < m + |PillMarker| then 0
        else
          match IndexOfIgnoreCase(s, close, gt + 1)
          case None => 0
          case Some(c) => c + |close|
  }

  /** Whatever `PillLength` matches is laid out as `PillLayout` says. */
  lemma PillLengthLayout(s: string, from: nat, close: string)
    ensures var n := PillLength(s, from, close);
      n > 0 ==> exists gt: nat, m: nat :: PillLayout(s, from, close, gt, m, n)
  {
    if PillLength(s, from, close) > 0 {
      var gt, m, c := PillSearches(s, from, close);
      PillLayoutFound(s, from, close, gt, m, c);
    }
  }

  /** The three searches behind a positive `PillLength`. */
  lemma PillSearches(s: string, from: nat, close: string) returns (gt: nat, m: nat, c: nat)
    requires PillLength(s, from, close) > 0
    ensures IndexOf(s, '>', from) == Some(gt)
    ensures IndexOfIgnoreCase(s, PillMarker, from) == Some(m) && m + |PillMarker| <= gt
    ensures IndexOfIgnoreCase(s, close, gt + 1) == Some(c) && PillLength(s, from, close) == c + |close|
  {
    gt := IndexOf(s, '>', from).value;
    m := IndexOfIgnoreCase(s, PillMarker, from).value;
    c := IndexOfIgnoreCase(s, close, gt + 1).value;
  }

  /** What the three searches of `PillLength` find is a pill layout. */
  lemma PillLayoutFound(s: string, from: nat, close: string, gt: nat, m: nat, c: nat)
    requires from <= gt < |s| && s[gt] == '>' && forall j :: from <= j < gt ==> s[j] != '>'
    requires from <= m && m + |PillMarker| <= gt && StartsWithIgnoreCase(s[m..], PillMarker)
    requires gt + 1 <= c && c + |close| <= |s| && StartsWithIgnoreCase(s[c..], close)
    requires forall j :: gt + 1 <= j < c ==> !StartsWithIgnoreCase(s[j..], close)
    ensures PillLayout(s, from, close, gt, m, c + |close|)
  {
    assert s[c + |close| - |close|..] == s[c..];
  }

  /** A pill laid out to end at `n` is matched up to `n`. */
  lemma PillLengthOfLayout(s: string, from: nat, close: string, gt: nat, m: nat, n: nat)
    requires PillLayout(s, from, close, gt, m, n)
    ensures PillLength(s, from, close) == n
  {
    PillLengthAt(s, from, close, gt, m, n - |close|);
  }

  /** A pill match is there exactly when the layout is: the match length is
      positive if and only if some `>`, marker and closing tag are laid out
      as `PillLayout` says, and then the match ends where the layout does. */
  lemma PillLengthIff(s: string, from: nat, close: string)
    ensures PillLength(s, from, close) > 0 <==> exists gt: nat, m: nat, n: nat :: PillLayout(s, from, close, gt, m, n)
    ensures forall gt: nat, m: nat, n: nat :: PillLayout(s, from, close, gt, m, n) ==> PillLength(s, from, close) == n
  {
    PillLengthLayout(s, from, close);
    forall gt: nat, m: nat, n: nat | PillLayout(s, from, close, gt, m, n)
      ensures PillLength(s, from, close) == n
    {
      PillLengthOfLayout(s, from, close, gt, m, n);
    }
  }

  /** The length of the match of `p` at the start of `s`, or 0 when the
      pattern does not match there. */
  function MatchLength(p: Pattern, s: string): (n: nat)
    ensures n <= |s|
    ensures n > 0 && p.CitationPill? ==>
      var close := "</" + p.tag + ">";
      && StartsWithIgnoreCase(s, "<" + p.tag)
      && |close| <= n && StartsWithIgnoreCase(s[n - |close|..], close)
    ensures n > 0 && p.NumericAttr? ==>
      && IsJsSpace(s[0]) && OccursAt(s, p.attr + "=\"", 1)
      && |p.attr| + 4 < n && s[n - 1] == '"'
      && forall i :: |p.attr| + 3 <= i < n - 1 ==> IsDigit(s[i])
  {
    match p
    case CitationPill(tag) =>
      var open := "<" + tag;
      var close := "</" + tag + ">";
      if !StartsWithIgnoreCase(s, open) then 0
      else PillLength(s, |open|, close)
    case NumericAttr(attr) =>
      var head := attr + "=\"";
      if |s| < 1 + |head| || !IsJsSpace(s[0]) || s[1..1 + |head|] != head then 0
      else
        var d := DigitRun(s[1 + |head|..]);
        var q := 1 + |head| + d;
        if d > 0 && q < |s| && s[q] == '"' then q + 1 else 0
  }

  /** A global replacement by the empty string, for a pattern given by its
      matcher: `m(t)` is the length of the match at the start of `t`, 0 for
      none. */
  function Scan(m: string -> nat, s: string): (r: string)
    requires forall t :: m(t) <= |t|
    decreases |s|
    ensures |r| <= |s|
  {
    if s == [] then []
    else
      var n := m(s);
      if n > 0 then Scan(m, s[n..]) else [s[0]] + Scan(m, s[1..])
  }

  /** `s.replace(pattern, '')` with the global flag. */
  function Replace(p: Pattern, s: string): (r: string)
    ensures |r| <= |s|
  {
    Scan(t => MatchLength(p, t), s)
  }

  /** No position of `s` starts a match of `p`. */
  predicate NoMatch(p: Pattern, s: string)
  {
    forall i :: 0 <= i < |s| ==> MatchLength(p, s[i..]) == 0
  }

  /** `cleanHtml(html)`: the four removals, in the source's order. */
  function CleanHtml(html: string): (r: string)
    ensures |r| <= |html|
  {
    var noSpanPills := Replace(CitationPill("span"), html);
    var noPills := Replace(CitationPill("a"), noSpanPills);
    var noStarts := Replace(NumericAttr("data-start"), noPills);
    Replace(NumericAttr("data-end"), noStarts)
  }

  /** The scan copies every character before the first match unchanged and
      then continues from that match: one left-to-right pass. */
  lemma ReplaceCopiesUpToMatch(p: Pattern, s: string, i: nat)
    requires i <= |s|
    requires forall j :: 0 <= j < i ==> MatchLength(p, s[j..]) == 0
    ensures Replace(p, s) == s[..i] + Replace(p, s[i..])
  {
    ScanCopiesUpToMatch(t => MatchLength(p, t), s, i);
  }

  lemma {:induction false} ScanCopiesUpToMatch(m: string -> nat, s: string, i: nat)
    requires forall t :: m(t) <= |t|
    requires i <= |s|
    requires forall j :: 0 <= j < i ==> m(s[j..]) == 0
    ensures Scan(m, s) == s[..i] + Scan(m, s[i..])
  {
    if i == 0 {
      assert s[..0] == [] && s[0..] == s;
    } else {
      ScanCopiesUpToMatch(m, s, i - 1);
      ScanKeepsFirst(m, s[i - 1..]);
      SplitLast(s, i);
      AppendAssoc(s[..i - 1], [s[i - 1]], Scan(m, s[i..]));
    }
  }

  lemma ScanKeepsFirst(m: string -> nat, t: string)
    requires forall u :: m(u) <= |u|
    requires t != [] && m(t) == 0
    ensures Scan(m, t) == [t[0]] + Scan(m, t[1..])
  {
  }

  lemma SplitLast(s: string, i: nat)
    requires 0 < i <= |s|
    ensures s[..i] == s[..i - 1] + [s[i - 1]]
    ensures s[i - 1..][0] == s[i - 1] && s[i - 1..][1..] == s[i..]
  {
  }

  /** A replacement is the identity on a string where the pattern never
      matches. */
  lemma ReplaceNoMatch(p: Pattern, s: string)
    requires NoMatch(p, s)
    ensures Replace(p, s) == s
  {
    ReplaceCopiesUpToMatch(p, s, |s|);
    assert s[|s|..] == [];
  }

  /** A match at the very start is dropped whole. */
  lemma ReplaceDropsMatch(p: Pattern, s: string)
    requires MatchLength(p, s) > 0
    ensures Replace(p, s) == Replace(p, s[MatchLength(p, s)..])
    ensures |Replace(p, s)| < |s|
  {
  }

  /** `cleanHtml` is the identity on a fragment with no citation pill and no
      numeric `data-start`/`data-end` attribute. */
  lemma CleanHtmlNoOp(html: string)
    requires NoMatch(CitationPill("span"), html) && NoMatch(CitationPill("a"), html)
    requires NoMatch(NumericAttr("data-start"), html) && NoMatch(NumericAttr("data-end"), html)
    ensures CleanHtml(html) == html
  {
    ReplaceNoMatch(CitationPill("span"), html);
    ReplaceNoMatch(CitationPill("a"), html);
    ReplaceNoMatch(NumericAttr("data-start"), html);
    ReplaceNoMatch(NumericAttr("data-end"), html);
  }

  /** The rest of the tag runs to the first `>` at `gt` and holds the
      marker at `m`; the first closing tag after `gt` is at `c`. The lazy
      `[\s\S]*?` stops there, so the match ends right after it. */
  lemma PillLengthAt(s: string, from: nat, close: string, gt: nat, m: nat, c: nat)
    requires from <= gt < |s| && s[gt] == '>'
    requires forall j :: from <= j < gt ==> s[j] != '>'
    requires from <= m && m + |PillMarker| <= gt && StartsWithIgnoreCase(s[m..], PillMarker)
    requires gt < c <= |s| && StartsWithIgnoreCase(s[c..], close)
    requires forall j :: gt < j < c ==> !StartsWithIgnoreCase(s[j..], close)
    ensures PillLength(s, from, close) == c + |close|
  {
    IndexOfAt(s, '>', from, gt);
    IndexOfIgnoreCaseAtMost(s, PillMarker, from, m);
    IndexOfIgnoreCaseAt(s, close, gt + 1, c);
  }

  lemma IndexOfAt(s: string, c: char, from: nat, k: nat)
    requires from <= k < |s| && s[k] == c
    requires forall j :: from <= j < k ==> s[j] != c
    ensures IndexOf(s, c, from) == Some(k)
  {
  }

  lemma IndexOfIgnoreCaseAtMost(s: string, p: string, from: nat, k: nat)
    requires from <= k <= |s| && StartsWithIgnoreCase(s[k..], p)
    ensures IndexOfIgnoreCase(s, p, from).Some? && IndexOfIgnoreCase(s, p, from).value <= k
  {
  }

  lemma IndexOfIgnoreCaseAt(s: string, p: string, from: nat, k: nat)
    requires from <= k <= |s| && StartsWithIgnoreCase(s[k..], p)
    requires forall j :: from <= j < k ==> !StartsWithIgnoreCase(s[j..], p)
    ensures IndexOfIgnoreCase(s, p, from) == Some(k)
  {
    IndexOfIgnoreCaseAtMost(s, p, from, k);
  }

  /** A citation pill at the start of `s`, laid out as `PillLengthAt`
      describes after `<TAG`. */
  lemma PillAt(s: string, tag: string, gt: nat, m: nat, c: nat)
    requires StartsWithIgnoreCase(s, "<" + tag)
    requires |tag| + 1 <= gt < |s| && s[gt] == '>'
    requires forall j :: |tag| + 1 <= j < gt ==> s[j] != '>'
    requires |tag| + 1 <= m && m + |PillMarker| <= gt && StartsWithIgnoreCase(s[m..], PillMarker)
    requires gt < c <= |s| && StartsWithIgnoreCase(s[c..], "</" + tag + ">")
    requires forall j :: gt < j < c ==> !StartsWithIgnoreCase(s[j..], "</" + tag + ">")
    ensures MatchLength(CitationPill(tag), s) == c + |tag| + 3
  {
    var open := "<" + tag;
    var close := "</" + tag + ">";
    PillLengthAt(s, |open|, close, gt, m, c);
    assert MatchLength(CitationPill(tag), s) == PillLength(s, |open|, close);
  }

  /** The two texts agree on the `|p|` characters from `j` on. */
  lemma IgnoreCaseInSlice(s: string, a: nat, b: nat, p: string, j: nat)
    requires a <= j && j + |p| <= b <= |s|
    ensures StartsWithIgnoreCase(s[j..], p) <==> StartsWithIgnoreCase(s[a..b][j - a..], p)
  {
    assert forall i :: 0 <= i < |p| ==> s[j..][i] == s[a..b][j - a..][i];
  }

  /** A whole citation pill, `<TAG ...marker...>body</TAG>`, is one match when
      its tag holds no `>` and its body holds no closing tag; the global
      replacement drops it and goes on with the text after it. */
  lemma PillMatch(tag: string, close: string, pre: string, post: string, body: string, rest: string)
    requires close == "</" + tag + ">"
    requires '>' !in pre && '>' !in post
    requires forall j :: 0 <= j < |body| ==> !StartsWithIgnoreCase((body + close)[j..], close)
    ensures var s := "<" + tag + pre + PillMarker + post + ">" + body + close + rest;
      && MatchLength(CitationPill(tag), s) == |s| - |rest|
      && Replace(CitationPill(tag), s) == Replace(CitationPill(tag), rest)
  {
    var head := "<" + tag + pre + PillMarker + post + ">";
    var s := head + body + close + rest;
    var gt := |head| - 1;
    var m := 1 + |tag| + |pre|;
    var c := |head| + |body|;
    PillOpenTag(s, head, tag, pre, post, body, close, rest);
    PillClosing(s, head, body, close, rest);
    PillAt(s, tag, gt, m, c);
    assert s[|s| - |rest|..] == rest;
  }

  /** `cleanHtml` removes a `span` citation pill at the start of the
      fragment and cleans the rest as if the pill had not been there. */
  lemma CleanHtmlDropsSpanPill(pre: string, post: string, body: string, rest: string)
    requires '>' !in pre && '>' !in post
    requires forall j :: 0 <= j < |body| ==> !StartsWithIgnoreCase((body + "</span>")[j..], "</span>")
    ensures CleanHtml("<span" + pre + PillMarker + post + ">" + body + "</span>" + rest) == CleanHtml(rest)
  {
    assert "<" + "span" == "<span" && "</" + "span" + ">" == "</span>";
    PillMatch("span", "</span>", pre, post, body, rest);
  }

  /** The opening tag: `<TAG`, then no `>` before the one ending the tag,
      with the marker in between. */
  lemma PillOpenTag(s: string, head: string, tag: string, pre: string, post: string, body: string, close: string, rest: string)
    requires '>' !in pre && '>' !in post
    requires head == "<" + tag + pre + PillMarker + post + ">"
    requires s == head + body + close + rest
    ensures StartsWithIgnoreCase(s, "<" + tag)
    ensures s[|head| - 1] == '>' && forall j :: |tag| + 1 <= j < |head| - 1 ==> s[j] != '>'
    ensures StartsWithIgnoreCase(s[1 + |tag| + |pre|..], PillMarker)
  {
    assert s[..|tag| + 1] == "<" + tag;
    assert s[|tag| + 1..|head| - 1] == pre + PillMarker + post;
    assert '>' !in PillMarker;
    var m := 1 + |tag| + |pre|;
    assert s[m..m + |PillMarker|] == PillMarker;
  }

  /** The closing tag stands right after the body, and none starts inside
      the body. */
  lemma PillClosing(s: string, head: string, body: string, close: string, rest: string)
    requires s == head + body + close + rest
    requires forall j :: 0 <= j < |body| ==> !StartsWithIgnoreCase((body + close)[j..], close)
    ensures StartsWithIgnoreCase(s[|head| + |body|..], close)
    ensures forall j :: |head| <= j < |head| + |body| ==> !StartsWithIgnoreCase(s[j..], close)
  {
    var c := |head| + |body|;
    assert s[c..c + |close|] == close;
    assert s[|head|..c + |close|] == body + close;
    forall j | |head| <= j < c
      ensures !StartsWithIgnoreCase(s[j..], close)
    {
      IgnoreCaseInSlice(s, |head|, c + |close|, close, j);
    }
  }

  /** A citation pill matches at the start of `s` exactly when `s` starts
      with `<TAG` and continues as `PillLayout` says, and then the match is
      the whole layout: `<TAG[^>]*MARKER[^>]*>[\s\S]*?</TAG>`. */
  lemma PillMatchIff(tag: string, s: string)
    ensures MatchLength(CitationPill(tag), s) > 0
      <==> StartsWithIgnoreCase(s, "<" + tag) && exists gt: nat, m: nat, n: nat :: TagLayout(s, tag, gt, m, n)
    ensures StartsWithIgnoreCase(s, "<" + tag) ==>
      forall gt: nat, m: nat, n: nat :: TagLayout(s, tag, gt, m, n) ==> MatchLength(CitationPill(tag), s) == n
  {
    var close := "</" + tag + ">";
    if StartsWithIgnoreCase(s, "<" + tag) {
      var k := MatchLength(CitationPill(tag), s);
      assert k == PillLength(s, |tag| + 1, close);
      if k > 0 {
        PillLengthLayout(s, |tag| + 1, close);
        var gt: nat, m: nat :| PillLayout(s, |tag| + 1, close, gt, m, k);
        assert TagLayout(s, tag, gt, m, k);
      }
      forall gt: nat, m: nat, n: nat | TagLayout(s, tag, gt, m, n)
        ensures k == n
      {
        PillLengthOfLayout(s, |tag| + 1, close, gt, m, n);
      }
    }
  }

  /** A numeric attribute matches exactly when a whitespace character, the
      attribute name, `="`, one or more digits and `"` follow each other;
      the match is that whole text. */
  lemma NumericAttrMatch(attr: string, sp: char, digits: string, rest: string)
    requires IsJsSpace(sp) && digits != []
    requires forall i :: 0 <= i < |digits| ==> IsDigit(digits[i])
    ensures var s := [sp] + attr + "=\"" + digits + "\"" + rest;
      MatchLength(NumericAttr(attr), s) == |attr| + |digits| + 4
  {
    var head := attr + "=\"";
    var s := [sp] + attr + "=\"" + digits + "\"" + rest;
    assert s[1..1 + |head|] == head;
    assert s[1 + |head|..] == digits + ("\"" + rest);
    DigitRunOf(digits, "\"" + rest);
  }

  lemma {:induction false} DigitRunOf(digits: string, rest: string)
    requires forall i :: 0 <= i < |digits| ==> IsDigit(digits[i])
    requires rest == [] || !IsDigit(rest[0])
    ensures DigitRun(digits + rest) == |digits|
  {
    if digits != [] {
      assert (digits + rest)[1..] == digits[1..] + rest;
      DigitRunOf(digits[1..], rest);
    } else {
      assert digits + rest == rest;
    }
  }

  // ---------------------------------------------------------------------
  // normalizeLineTerminators

  predicate IsUnicodeLineBreak(c: char)
  {
    c == '\U{2028}' || c == '\U{2029}'
  }

  /** `markdown.replace(/[\u2028\u2029]/g, '\n')`. */
  function NormalizeLineTerminators(s: string): (r: string)
    ensures |r| == |s|
    ensures forall i :: 0 <= i < |r| ==> !IsUnicodeLineBreak(r[i])
    ensures forall i :: 0 <= i < |s| && !IsUnicodeLineBreak(s[i]) ==> r[i] == s[i]
    ensures forall i :: 0 <= i < |s| && IsUnicodeLineBreak(s[i]) ==> r[i] == '\n'
  {
    seq(|s|, i requires 0 <= i < |s| => if IsUnicodeLineBreak(s[i]) then '\n' else s[i])
  }

  /** Normalizing works character by character, so it distributes over
      concatenation and a second pass changes nothing. */
  lemma NormalizeConcat(a: string, b: string)
    ensures NormalizeLineTerminators(a + b)
         == NormalizeLineTerminators(a) + NormalizeLineTerminators(b)
  {
  }

  lemma NormalizeIdempotent(s: string)
    ensures NormalizeLineTerminators(NormalizeLineTerminators(s)) == NormalizeLineTerminators(s)
  {
  }

  // ---------------------------------------------------------------------
  // escapeHtml

  /** `s.replace(/C/g, rep)` for a one-character pattern. */
  function ReplaceChar(s: string, c: char, rep: string): (r: string)
    ensures c !in s ==> r == s
    ensures |rep| >= 1 ==> |r| >= |s|
  {
    if s == [] then [] else (if s[0] == c then rep else [s[0]]) + ReplaceChar(s[1..], c, rep)
  }

  /** Replacing a character by a single character works in place: every
      occurrence of `c` becomes `x`, every other character stays where it
      was, and the length is kept. */
  lemma {:induction false} ReplaceCharInPlace(s: string, c: char, x: char)
    ensures ReplaceChar(s, c, [x]) == seq(|s|, i requires 0 <= i < |s| => if s[i] == c then x else s[i])
  {
    if s != [] {
      ReplaceCharInPlace(s[1..], c, x);
    }
  }

  /** `escapeHtml(str)`: `&` first, then `<`, `>` and `"`. */
  function EscapeHtml(s: string): (r: string)
    ensures |r| >= |s|
    ensures '&' !in s && '<' !in s && '>' !in s && '"' !in s ==> r == s
  {
    ReplaceChar(ReplaceChar(ReplaceChar(ReplaceChar(s, '&', "&amp;"), '<', "&lt;"), '>', "&gt;"), '"', "&quot;")
  }

  /** The entity one character becomes. */
  function EscapeChar(c: char): string
  {
    if c == '&' then "&amp;"
    else if c == '<' then "&lt;"
    else if c == '>' then "&gt;"
    else if c == '"' then "&quot;"
    else [c]
  }

  lemma {:induction false} ReplaceCharConcat(a: string, b: string, c: char, rep: string)
    ensures ReplaceChar(a + b, c, rep) == ReplaceChar(a, c, rep) + ReplaceChar(b, c, rep)
  {
    if a != [] {
      ConsConcat(a, b);
      ReplaceCharConcat(a[1..], b, c, rep);
      var h := if a[0] == c then rep else [a[0]];
      AppendAssoc(h, ReplaceChar(a[1..], c, rep), ReplaceChar(b, c, rep));
    } else {
      assert a + b == b;
    }
  }

  lemma ConsConcat(a: string, b: string)
    requires a != []
    ensures a + b != [] && (a + b)[0] == a[0] && (a + b)[1..] == a[1..] + b
  {
  }

  /** Because `&` is replaced first, the four passes escape each character
      on its own: an entity written by a later pass is never escaped again. */
  lemma {:induction false} EscapeHtmlCharwise(s: string)
    ensures s != [] ==> EscapeHtml(s) == EscapeChar(s[0]) + EscapeHtml(s[1..])
  {
    if s != [] {
      var c := s[0];
      assert s == [c] + s[1..];
      ReplaceCharConcat([c], s[1..], '&', "&amp;");
      var a1 := ReplaceChar([c], '&', "&amp;");
      var b1 := ReplaceChar(s[1..], '&', "&amp;");
      ReplaceCharConcat(a1, b1, '<', "&lt;");
      var a2 := ReplaceChar(a1, '<', "&lt;");
      var b2 := ReplaceChar(b1, '<', "&lt;");
      ReplaceCharConcat(a2, b2, '>', "&gt;");
      var a3 := ReplaceChar(a2, '>', "&gt;");
      var b3 := ReplaceChar(b2, '>', "&gt;");
      ReplaceCharConcat(a3, b3, '"', "&quot;");
      SingleCharEscape(c);
    }
  }

  lemma ReplaceCharSingle(c: char, x: char, rep: string)
    ensures ReplaceChar([c], x, rep) == if c == x then rep else [c]
  {
    assert [c][1..] == [];
  }

  lemma SingleCharEscape(c: char)
    ensures ReplaceChar(ReplaceChar(ReplaceChar(ReplaceChar([c], '&', "&amp;"), '<', "&lt;"), '>', "&gt;"), '"', "&quot;")
         == EscapeChar(c)
  {
    ReplaceCharSingle(c, '&', "&amp;");
    if c == '&' {
      assert '<' !in "&amp;" && '>' !in "&amp;" && '"' !in "&amp;";
    } else {
      ReplaceCharSingle(c, '<', "&lt;");
      if c == '<' {
        assert '>' !in "&lt;" && '"' !in "&lt;";
      } else {
        ReplaceCharSingle(c, '>', "&gt;");
        if c == '>' {
          assert '"' !in "&gt;";
        } else {
          ReplaceCharSingle(c, '"', "&quot;");
        }
      }
    }
  }

  /** Reads the entities `escapeHtml` writes back as their characters. */
  function UnescapeHtml(s: string): string
  {
    if s == [] then []
    else if StartsWith(s, "&amp;") then "&" + UnescapeHtml(s[5..])
    else if StartsWith(s, "&lt;") then "<" + UnescapeHtml(s[4..])
    else if StartsWith(s, "&gt;") then ">" + UnescapeHtml(s[4..])
    else if StartsWith(s, "&quot;") then "\"" + UnescapeHtml(s[6..])
    else [s[0]] + UnescapeHtml(s[1..])
  }

  /** Unescaping reads one escaped character back. */
  lemma UnescapeChar(c: char, rest: string)
    ensures UnescapeHtml(EscapeChar(c) + rest) == [c] + UnescapeHtml(rest)
  {
    var t := EscapeChar(c) + rest;
    if c == '&' {
      assert StartsWith(t, "&amp;") && t[5..] == rest;
    } else if c == '<' {
      assert t[1] == 'l';
      assert !StartsWith(t, "&amp;") && StartsWith(t, "&lt;") && t[4..] == rest;
    } else if c == '>' {
      assert t[1] == 'g';
      assert !StartsWith(t, "&amp;") && !StartsWith(t, "&lt;");
      assert StartsWith(t, "&gt;") && t[4..] == rest;
    } else if c == '"' {
      assert t[1] == 'q';
      assert !StartsWith(t, "&amp;") && !StartsWith(t, "&lt;") && !StartsWith(t, "&gt;");
      assert StartsWith(t, "&quot;") && t[6..] == rest;
    } else {
      assert t[0] == c && t[1..] == rest;
      assert !StartsWith(t, "&amp;") && !StartsWith(t, "&lt;");
      assert !StartsWith(t, "&gt;") && !StartsWith(t, "&quot;");
    }
  }

  /** Escaping loses nothing: unescaping gives the original text back. */
  lemma {:induction false} EscapeRoundTrip(s: string)
    ensures UnescapeHtml(EscapeHtml(s)) == s
  {
    if s != [] {
      EscapeHtmlCharwise(s);
      EscapeRoundTrip(s[1..]);
      UnescapeChar(s[0], EscapeHtml(s[1..]));
    } else {
      assert EscapeHtml(s) == [];
    }
  }

  predicate IsMarkupChar(c: char)
  {
    c == '<' || c == '>' || c == '"'
  }

  /** Escaped text holds no `<`, `>` or `"`. */
  lemma {:induction false} EscapeRemovesMarkup(s: string)
    ensures forall i :: 0 <= i < |EscapeHtml(s)| ==> !IsMarkupChar(EscapeHtml(s)[i])
  {
    if s != [] {
      EscapeHtmlCharwise(s);
      EscapeRemovesMarkup(s[1..]);
      var e := EscapeChar(s[0]);
      var u := EscapeHtml(s[1..]);
      EscapeCharNoMarkup(s[0]);
      NoMarkupConcat(e, u);
    }
  }

  lemma EscapeCharNoMarkup(c: char)
    ensures forall i :: 0 <= i < |EscapeChar(c)| ==> !IsMarkupChar(EscapeChar(c)[i])
  {
  }

  lemma NoMarkupConcat(e: string, u: string)
    requires forall i :: 0 <= i < |e| ==> !IsMarkupChar(e[i])
    requires forall i :: 0 <= i < |u| ==> !IsMarkupChar(u[i])
    ensures forall i :: 0 <= i < |e + u| ==> !IsMarkupChar((e + u)[i])
  {
  }

  // ---------------------------------------------------------------------
  // the title-prefix strip

  /** The number of leading characters of `s` that `\s` matches. */
  function SpaceRun(s: string): (n: nat)
    ensures n <= |s|
    ensures forall i :: 0 <= i < n ==> IsJsSpace(s[i])
    ensures n < |s| ==> !IsJsSpace(s[n])
  {
    if s != [] && IsJsSpace(s[0]) then 1 + SpaceRun(s[1..]) else 0
  }

  const TitlePrefix: string := "ChatGPT"

  /** `s` without its leading run of `\s` characters. */
  function DropSpaces(s: string): (r: string)
    ensures |r| <= |s| && r == s[|s| - |r|..]
    ensures forall i :: 0 <= i < |s| - |r| ==> IsJsSpace(s[i])
    ensures r == [] || !IsJsSpace(r[0])
  {
    s[SpaceRun(s)..]
  }

  /** The text the pattern `\s*-?\s*` may match: spaces with at most one
      `-` among them. */
  predicate SpacesAroundDash(x: string)
  {
    (forall i :: 0 <= i < |x| ==> IsJsSpace(x[i]) || x[i] == '-')
    && (forall i, j :: 0 <= i < j < |x| && x[i] == '-' ==> x[j] != '-')
  }

  /** What `\s*-?\s*` removes from the text after `ChatGPT`: all it can,
      so what is left starts with neither a space nor, unless a `-` was
      already taken, a `-`. */
  function DropSpacedDash(a: string): (r: string)
    ensures |r| <= |a| && r == a[|a| - |r|..]
    ensures SpacesAroundDash(a[..|a| - |r|])
    ensures r == [] || !IsJsSpace(r[0])
    ensures r != [] && r[0] == '-' ==> '-' in a[..|a| - |r|]
  {
    var b := DropSpaces(a);
    if b != [] && b[0] == '-' then
      var r := DropSpaces(b[1..]);
      DashTaken(a, b, r);
      r
    else
      SpacesDashSpaces(a[..|a| - |b|], []);
      b
  }

  lemma DashTaken(a: string, b: string, r: string)
    requires b == DropSpaces(a) && b != [] && b[0] == '-'
    requires r == DropSpaces(b[1..])
    ensures |r| <= |a| && r == a[|a| - |r|..]
    ensures SpacesAroundDash(a[..|a| - |r|]) && '-' in a[..|a| - |r|]
  {
    var x := a[..|a| - |b|];
    var y := b[1..][..|b| - 1 - |r|];
    SplitAroundDash(a, b, r);
    SpacesDashSpaces(x, y);
  }

  /** Cutting the spaces, the `-` and the spaces after it off `a` leaves `r`. */
  lemma SplitAroundDash(a: string, b: string, r: string)
    requires |b| <= |a| && b == a[|a| - |b|..] && b != [] && b[0] == '-'
    requires |r| < |b| && r == b[1..][|b| - 1 - |r|..]
    ensures |r| <= |a| && r == a[|a| - |r|..]
    ensures a[..|a| - |r|] == a[..|a| - |b|] + "-" + b[1..][..|b| - 1 - |r|]
  {
    var x := a[..|a| - |b|];
    var y := b[1..][..|b| - 1 - |r|];
    assert a == x + b;
    assert b == "-" + (y + r);
    Regroup(x, "-", y, r);
  }

  lemma Regroup(x: string, d: string, y: string, r: string)
    ensures x + (d + (y + r)) == (x + d + y) + r
  {
  }

  lemma SpacesDashSpaces(x: string, y: string)
    requires forall i :: 0 <= i < |x| ==> IsJsSpace(x[i])
    requires forall i :: 0 <= i < |y| ==> IsJsSpace(y[i])
    ensures SpacesAroundDash(x)
    ensures SpacesAroundDash(x + "-" + y) && '-' in x + "-" + y
  {
    var z := x + "-" + y;
    assert z[|x|] == '-';
    forall i | 0 <= i < |z| ensures IsJsSpace(z[i]) || z[i] == '-' {
      if i > |x| { assert z[i] == y[i - |x| - 1]; }
    }
    forall i, j | 0 <= i < j < |z| && z[i] == '-' ensures z[j] != '-' {
      assert i == |x|;
      assert z[j] == y[j - |x| - 1];
    }
  }

  // `title.replace(/^ChatGPT\s*-?\s*/i, '')`: each quantifier is greedy and
  // nothing after it can fail, so the first try is the match.
  function StripTitlePrefix(title: string): (r: string)
    ensures |r| <= |title| && r == title[|title| - |r|..]
    ensures !StartsWithIgnoreCase(title, TitlePrefix) ==> r == title
    ensures StartsWithIgnoreCase(title, TitlePrefix) ==>
      var removed := title[..|title| - |r|];
      && StartsWithIgnoreCase(removed, TitlePrefix)
      && SpacesAroundDash(removed[|TitlePrefix|..])
      && (r == [] || !IsJsSpace(r[0]))
      && (r != [] && r[0] == '-' ==> '-' in removed[|TitlePrefix|..])
  {
    if !StartsWithIgnoreCase(title, TitlePrefix) then title
    else
      var a := title[|TitlePrefix|..];
      var r := DropSpacedDash(a);
      assert title[..|title| - |r|][|TitlePrefix|..] == a[..|a| - |r|];
      r
  }

  lemma {:induction false} DropSpacesOf(x: string, rest: string)
    requires forall i :: 0 <= i < |x| ==> IsJsSpace(x[i])
    requires rest == [] || !IsJsSpace(rest[0])
    ensures DropSpaces(x + rest) == rest
  {
    if x != [] {
      assert (x + rest)[1..] == x[1..] + rest;
      DropSpacesOf(x[1..], rest);
    } else {
      assert x + rest == rest;
    }
  }

  /** A title of the form `ChatGPT - rest` loses exactly `ChatGPT - `. */
  lemma StripTitleDash(title: string, rest: string)
    requires title == TitlePrefix + " - " + rest
    requires rest == [] || !IsJsSpace(rest[0])
    ensures StripTitlePrefix(title) == rest
  {
    assert title[..|TitlePrefix|] == TitlePrefix;
    assert StartsWithIgnoreCase(title, TitlePrefix);
    var a := title[|TitlePrefix|..];
    var b := "-" + (" " + rest);
    assert a == " " + b;
    DropSpacesOf(" ", b);
    assert b[1..] == " " + rest;
    DropSpacesOf(" ", rest);
    DropSpacedDashOf(a, b, rest);
  }

  lemma DropSpacedDashOf(a: string, b: string, r: string)
    requires DropSpaces(a) == b && b != [] && b[0] == '-' && DropSpaces(b[1..]) == r
    ensures DropSpacedDash(a) == r
  {
  }
}
