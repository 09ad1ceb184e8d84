/** The custom code-fence rule of the converter and its insertion into the
    rule list of a Turndown service (`buildTurndown`, src/index.ts). The
    DOM is a tree of text nodes and elements; a rule filter is one of the
    three forms Turndown accepts (a tag name, a list of tag names, or a
    function, of which only the source text is visible). */
module CodeRule {
  import opened Text
  import Sanitize

  datatype Node =
    | TextNode(data: string)
    | Element(nodeName: string, attributes: map<string, string>, children: seq<Node>)

  /** `Node.textContent`: the text of every descendant text node, in
      document order. */
  function TextContent(n: Node): string
  {
    match n
    case TextNode(d) => d
    case Element(_, _, cs) => Join(seq(|cs|, i requires 0 <= i < |cs| => TextContent(cs[i])), "")
  }

  /** The index of the first child that is an element, if any. */
  function FirstElementIndex(cs: seq<Node>): (r: Option<nat>)
    ensures r.Some? ==> (r.value < |cs| && cs[r.value].Element?
      && forall j :: 0 <= j < r.value ==> cs[j].TextNode?)
    ensures r.None? ==> forall j :: 0 <= j < |cs| ==> cs[j].TextNode?
  {
    if cs == [] then None
    else if cs[0].Element? then Some(0)
    else match FirstElementIndex(cs[1..])
      case None => None
      case Some(k) => Some(k + 1)
  }

  /** `Element.firstElementChild`. */
  function FirstElementChild(n: Node): Option<Node>
  {
    if n.TextNode? then None
    else match FirstElementIndex(n.children)
      case None => None
      case Some(k) => Some(n.children[k])
  }

  /** The rule's filter: a `PRE` element whose first element child is a
      `CODE` element. */
  predicate IsFencedPre(n: Node)
  {
    n.Element? && n.nodeName == "PRE"
    && match FirstElementChild(n)
      case None => false
      case Some(c) => c.nodeName == "CODE"
  }

  /** The filter holds exactly for a `PRE` element with a `CODE` element
      among its children and only text nodes before that one. */
  lemma IsFencedPreFirstCode(n: Node)
    ensures IsFencedPre(n) <==>
      n.Element? && n.nodeName == "PRE"
      && exists k :: 0 <= k < |n.children| && n.children[k].Element? && n.children[k].nodeName == "CODE"
           && forall j :: 0 <= j < k ==> n.children[j].TextNode?
  {
    if n.Element? {
      match FirstElementIndex(n.children)
      case None =>
      case Some(i) =>
        forall k | 0 <= k < |n.children| && n.children[k].Element? && forall j :: 0 <= j < k ==> n.children[j].TextNode?
          ensures k == i
        {
        }
    }
  }

  /** The characters of the class `[\w-]`. */
  predicate IsLangChar(c: char)
  {
    IsWordChar(c) || c == '-'
  }

  const LangPrefix: string := "language-"

  /** The regular expression `language-([\w-]+)` matches at index `i`. */
  predicate MatchesAt(s: string, i: nat)
  {
    OccursAt(s, LangPrefix, i) && i + |LangPrefix| < |s| && IsLangChar(s[i + |LangPrefix|])
  }

  /** The length of the greedy run of `[\w-]` at the start of `s`. */
  function LangRun(s: string): (n: nat)
    ensures n <= |s|
    ensures forall j :: 0 <= j < n ==> IsLangChar(s[j])
    ensures n < |s| ==> !IsLangChar(s[n])
  {
    if s != [] && IsLangChar(s[0]) then 1 + LangRun(s[1..]) else 0
  }

  /** The leftmost index from `i` on where the expression matches. */
  function FindLanguage(s: string, i: nat): (r: Option<nat>)
    requires i <= |s|
    ensures r.Some? ==> (i <= r.value < |s| && MatchesAt(s, r.value)
      && forall j :: i <= j < r.value ==> !MatchesAt(s, j))
    ensures r.None? ==> forall j :: i <= j <= |s| ==> !MatchesAt(s, j)
    decreases |s| - i
  {
    if i == |s| then None
    else if MatchesAt(s, i) then Some(i)
    else FindLanguage(s, i + 1)
  }

  /** `className.match(/language-([\w-]+)/)?.[1] ?? ''`: the first capture
      of the expression, or the empty string when it does not match. */
  function Language(className: string): (lang: string)
    ensures lang == [] <==> forall j :: 0 <= j <= |className| ==> !MatchesAt(className, j)
    ensures forall j :: 0 <= j < |lang| ==> IsLangChar(lang[j])
  {
    match FindLanguage(className, 0)
    case None => ""
    case Some(i) =>
      var start := i + |LangPrefix|;
      className[start..start + LangRun(className[start..])]
  }

  /** The capture is the whole maximal run after the leftmost match. */
  lemma LanguageIsLeftmostRun(className: string, i: nat)
    requires MatchesAt(className, i)
    requires forall j :: 0 <= j < i ==> !MatchesAt(className, j)
    ensures var start := i + |LangPrefix|;
      && OccursAt(className, Language(className), start)
      && (start + |Language(className)| < |className| ==> !IsLangChar(className[start + |Language(className)|]))
  {
    assert FindLanguage(className, 0) == Some(i);
  }

  lemma {:induction false} LangRunOfLangChars(s: string, t: string)
    requires forall j :: 0 <= j < |s| ==> IsLangChar(s[j])
    requires t == [] || !IsLangChar(t[0])
    ensures LangRun(s + t) == |s|
  {
    if s != [] {
      assert (s + t)[0] == s[0];
      assert (s + t)[1..] == s[1..] + t;
      LangRunOfLangChars(s[1..], t);
    } else {
      assert s + t == t;
    }
  }

  /** A class written `language-<lang>` gives back `lang`. */
  lemma LanguageOfClass(lang: string)
    requires lang != []
    requires forall j :: 0 <= j < |lang| ==> IsLangChar(lang[j])
    ensures Language(LangPrefix + lang) == lang
  {
    var s := LangPrefix + lang;
    assert s[..|LangPrefix|] == LangPrefix;
    assert MatchesAt(s, 0);
    assert s[|LangPrefix|..] == lang + [];
    LangRunOfLangChars(lang, []);
  }

  const Nbsp: char := '\U{00A0}'

  /** `.replace(/\u00a0/g, ' ')`: every no-break space becomes a plain
      space and nothing else changes. */
  function ReplaceNbsp(s: string): (r: string)
    ensures |r| == |s|
    ensures Nbsp !in r
    ensures forall i :: 0 <= i < |s| ==> r[i] == (if s[i] == Nbsp then ' ' else s[i])
  {
    Sanitize.ReplaceCharInPlace(s, Nbsp, ' ');
    Sanitize.ReplaceChar(s, Nbsp, " ")
  }

  const FenceOpen: string := "\n\n```"
  const FenceClose: string := "\n```\n\n"

  /** The fenced block the rule emits for a language and a code text. */
  function Fence(lang: string, code: string): string
  {
    FenceOpen + lang + "\n" + code + FenceClose
  }

  /** The info string of a fenced block: what follows the opening fence up
      to the first line feed. */
  function InfoString(block: string): string
  {
    if |block| < |FenceOpen| then "" else UpToNewline(block[|FenceOpen|..])
  }

  function UpToNewline(s: string): (r: string)
    ensures r <= s
  {
    if s == [] || s[0] == '\n' then "" else [s[0]] + UpToNewline(s[1..])
  }

  lemma {:induction false} UpToNewlineOf(a: string, b: string)
    requires '\n' !in a
    ensures UpToNewline(a + "\n" + b) == a
  {
    if a != [] {
      assert (a + "\n" + b)[0] == a[0];
      assert (a + "\n" + b)[1..] == a[1..] + "\n" + b;
      UpToNewlineOf(a[1..], b);
    } else {
      assert a + "\n" + b == "\n" + b;
    }
  }

  /** A fenced block gives back its language as the info string and its
      code text between the first line feed and the closing fence. */
  lemma FenceRoundTrip(lang: string, code: string)
    requires '\n' !in lang
    ensures var f := Fence(lang, code);
      && InfoString(f) == lang
      && f[|FenceOpen| + |lang| + 1..|f| - |FenceClose|] == code
  {
    var f := Fence(lang, code);
    assert f[|FenceOpen|..] == lang + "\n" + (code + FenceClose);
    UpToNewlineOf(lang, code + FenceClose);
  }

  /** The class attribute of the first element child (`''` if the child or
      the attribute is missing). */
  function CodeClass(n: Node): string
  {
    match FirstElementChild(n)
    case None => ""
    case Some(c) => if c.Element? && "class" in c.attributes then c.attributes["class"] else ""
  }

  /** The text of the first element child, with no-break spaces turned
      into spaces. */
  function CodeText(n: Node): (r: string)
    ensures Nbsp !in r
  {
    match FirstElementChild(n)
    case None => ""
    case Some(c) => ReplaceNbsp(TextContent(c))
  }

  /** A block built from a `[\w-]` language and a code text with no
      no-break space has none either, and gives both back. */
  lemma FenceOfLanguage(lang: string, code: string)
    requires forall j :: 0 <= j < |lang| ==> IsLangChar(lang[j])
    requires Nbsp !in code
    ensures var f := Fence(lang, code);
      && Nbsp !in f
      && StartsWith(f, FenceOpen) && InfoString(f) == lang
      && f[|FenceOpen| + |lang| + 1..|f| - |FenceClose|] == code
  {
    assert '\n' !in lang && Nbsp !in lang by {
      forall j | 0 <= j < |lang|
        ensures lang[j] != '\n' && lang[j] != Nbsp
      {
        assert IsLangChar(lang[j]);
      }
    }
    FenceRoundTrip(lang, code);
    var f := Fence(lang, code);
    assert f[..|FenceOpen|] == FenceOpen;
  }

  /** The rule's `replacement` for a node: a blank line, the opening fence
      with the language as its info string, the code text on the following
      lines, the closing fence and a blank line. */
  function Replacement(n: Node): (r: string)
    ensures r == FenceOpen + Language(CodeClass(n)) + "\n" + CodeText(n) + FenceClose
    ensures r[|r| - |FenceClose|..] == FenceClose
    ensures Nbsp !in r
    ensures |r| == |FenceOpen| + |Language(CodeClass(n))| + 1 + |CodeText(n)| + |FenceClose|
    ensures StartsWith(r, FenceOpen) && InfoString(r) == Language(CodeClass(n))
    ensures var lang := Language(CodeClass(n));
      r[|FenceOpen| + |lang| + 1..|r| - |FenceClose|] == CodeText(n)
  {
    var lang := Language(CodeClass(n));
    var code := CodeText(n);
    FenceOfLanguage(lang, code);
    Fence(lang, code)
  }

  /** The three forms of a Turndown rule filter. For a function only its
      source text is visible. */
  datatype Filter = TagName(tag: string) | TagNames(tags: seq<string>) | FilterFunction(source: string)

  datatype Rule = Rule(key: string, filter: Filter)

  /** The source text of the code rule's filter function. */
  const CodeFilterSource: string := "node => node.nodeName === 'PRE' && node.firstElementChild?.nodeName === 'CODE'"

  const FencedCodeRule: Rule := Rule("fencedCodeWithLang", FilterFunction(CodeFilterSource))

  /** The test passed to `findIndex`: a string filter naming `code` or
      `pre` in any case, or a function whose text mentions `CODE`. */
  predicate IsCodeOrPreRule(r: Rule)
  {
    match r.filter
    case TagName(t) => LowerString(t) == "code" || LowerString(t) == "pre"
    case FilterFunction(src) => Contains(src, "CODE")
    case TagNames(_) => false
  }

  /** `rulesArray.findIndex(...)`, with -1 as `None`. */
  function FirstCodeRule(rules: seq<Rule>): (r: Option<nat>)
    ensures r.Some? ==> (r.value < |rules| && IsCodeOrPreRule(rules[r.value])
      && forall j :: 0 <= j < r.value ==> !IsCodeOrPreRule(rules[j]))
    ensures r.None? ==> forall j :: 0 <= j < |rules| ==> !IsCodeOrPreRule(rules[j])
  {
    if rules == [] then None
    else if IsCodeOrPreRule(rules[0]) then Some(0)
    else match FirstCodeRule(rules[1..])
      case None => None
      case Some(k) => Some(k + 1)
  }

  /** The code rule's own filter passes the `findIndex` test. */
  lemma FencedCodeRuleIsCodeRule()
    ensures IsCodeOrPreRule(FencedCodeRule)
  {
    var i := |CodeFilterSource| - 5;
    assert CodeFilterSource[i..i + 4] == "CODE";
    assert OccursAt(CodeFilterSource, "CODE", i);
  }

  /** Where the rule is placed: at the first code/pre rule, or at the front
      (Turndown's `addRule` puts a new rule before all others). */
  function InsertPosition(rules: seq<Rule>): (k: nat)
    ensures k <= |rules|
    ensures forall j :: 0 <= j < k ==> !IsCodeOrPreRule(rules[j])
    ensures FirstCodeRule(rules).Some? ==> k == FirstCodeRule(rules).value
    ensures FirstCodeRule(rules).None? ==> k == 0
    ensures (k < |rules| && IsCodeOrPreRule(rules[k]))
      || (k == 0 && forall j :: 0 <= j < |rules| ==> !IsCodeOrPreRule(rules[j]))
  {
    match FirstCodeRule(rules)
    case Some(k) => k
    case None => 0
  }

  /** The rule list after `buildTurndown`. */
  function WithCodeRule(rules: seq<Rule>): seq<Rule>
  {
    var k := InsertPosition(rules);
    rules[..k] + [FencedCodeRule] + rules[k..]
  }

  /** The list grows by the one rule; taking it out gives back the old list
      in its old order; no rule before it is a code/pre rule, so it is the
      first one `findIndex` (and Turndown's first-match lookup among such
      rules) reaches; when a built-in code/pre rule exists, the new rule sits
      directly in front of it. */
  lemma WithCodeRuleShape(rules: seq<Rule>)
    ensures var r := WithCodeRule(rules); var k := InsertPosition(rules);
      && |r| == |rules| + 1
      && r[k] == FencedCodeRule
      && r[..k] + r[k + 1..] == rules
      && FirstCodeRule(r) == Some(k)
      && (FirstCodeRule(rules).Some? ==> r[k + 1] == rules[k] && IsCodeOrPreRule(r[k + 1]))
      && (FirstCodeRule(rules).None? ==> k == 0)
  {
    var r := WithCodeRule(rules);
    var k := InsertPosition(rules);
    assert r[..k] == rules[..k];
    assert r[k + 1..] == rules[k..];
    FencedCodeRuleIsCodeRule();
    assert IsCodeOrPreRule(r[k]);
    assert forall j :: 0 <= j < k ==> r[j] == rules[j];
  }

  /** With no code/pre rule present the rule goes to the front. */
  lemma WithCodeRuleNoCodeRule(rules: seq<Rule>)
    requires forall j :: 0 <= j < |rules| ==> !IsCodeOrPreRule(rules[j])
    ensures WithCodeRule(rules) == [FencedCodeRule] + rules
  {
  }

  /** Heading style, code block style and bullet marker. */
  datatype Options = Options(headingStyle: string, codeBlockStyle: string, bulletListMarker: string)

  const ConverterOptions: Options := Options("atx", "fenced", "-")

  /** A Turndown service: its options and its ordered rule list. */
  class TurndownService {
    var options: Options
    var rules: seq<Rule>

    /** A service whose built-in rules are `builtIn`. */
    constructor (options: Options, builtIn: seq<Rule>)
      ensures this.options == options && rules == builtIn
    {
      this.options := options;
      rules := builtIn;
    }

    /** `addRule(key, rule)`: the rule goes before every existing rule. */
    method AddRule(key: string, filter: Filter)
      modifies this
      ensures rules == [Rule(key, filter)] + old(rules)
      ensures options == old(options)
    {
      rules := [Rule(key, filter)] + rules;
    }

    /** `rules.array.splice(index, 0, rule)`. */
    method InsertAt(index: nat, rule: Rule)
      requires index <= |rules|
      modifies this
      ensures rules == old(rules[..index]) + [rule] + old(rules[index..])
      ensures options == old(options)
    {
      rules := rules[..index] + [rule] + rules[index..];
    }
  }

  /** `buildTurndown()`: a service with the converter's options whose rule
      list is the built-in one with the code rule inserted. */
  method BuildTurndown(builtIn: seq<Rule>) returns (td: TurndownService)
    ensures fresh(td)
    ensures td.options == ConverterOptions
    ensures td.rules == WithCodeRule(builtIn)
  {
    td := new TurndownService(ConverterOptions, builtIn);
    var existing := FirstCodeRule(td.rules);
    if existing.Some? {
      td.InsertAt(existing.value, FencedCodeRule);
    } else {
      td.AddRule(FencedCodeRule.key, FencedCodeRule.filter);
      assert td.rules == [] + [FencedCodeRule] + builtIn;
    }
  }

  /** A `pre` whose `code` child has the class `language-python` and the
      text `x`, no-break space, `=`, no-break space, `1` becomes a `python`
      block whose no-break spaces are plain spaces. */
  lemma PythonBlock(n: Node, c: Node, code: string)
    requires code == ['x', Nbsp, '=', Nbsp, '1']
    requires c == Element("CODE", map["class" := "language-python"], [TextNode(code)])
    requires n == Element("PRE", map[], [c])
    ensures IsFencedPre(n)
    ensures Replacement(n) == Fence("python", "x = 1")
  {
    assert FirstElementIndex(n.children) == Some(0);
    PythonClass(n, c);
    PythonText(n, c, code);
    ReplacementOf(n, "python", "x = 1");
  }

  lemma PythonClass(n: Node, c: Node)
    requires c == Element("CODE", map["class" := "language-python"], [TextNode(['x', Nbsp, '=', Nbsp, '1'])])
    requires n == Element("PRE", map[], [c])
    ensures Language(CodeClass(n)) == "python"
  {
    assert FirstElementIndex(n.children) == Some(0);
    assert CodeClass(n) == LangPrefix + "python";
    LanguageOfClass("python");
  }

  lemma PythonText(n: Node, c: Node, code: string)
    requires code == ['x', Nbsp, '=', Nbsp, '1']
    requires c == Element("CODE", map["class" := "language-python"], [TextNode(code)])
    requires n == Element("PRE", map[], [c])
    ensures CodeText(n) == "x = 1"
  {
    assert FirstElementIndex(n.children) == Some(0);
    assert TextContent(c) == code;
    assert ReplaceNbsp(code) == "x = 1";
  }

  lemma ReplacementOf(n: Node, lang: string, code: string)
    requires Language(CodeClass(n)) == lang && CodeText(n) == code
    ensures Replacement(n) == Fence(lang, code)
  {
  }
}
