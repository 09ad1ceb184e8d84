/** The slug generator (`slugify`, src/index.ts): turns a conversation title
    into a file-system-safe base name over `[a-z0-9_]`. */
module Slug {
  import opened Text

  const MaxSlugLen: nat := 120

  /** Base name used when nothing of the title survives cleaning. */
  const Fallback: string := "chatgpt_conversation"

  /** Suffix appended to a slug that is a reserved device name. */
  const ReservedSuffix: string := "_chatgpt"

  /** Device names that some file systems refuse as a bare base name. */
  const ReservedBasenames: set<string> := {
    "con", "prn", "aux", "nul",
    "com1", "com2", "com3", "com4", "com5", "com6", "com7", "com8", "com9",
    "lpt1", "lpt2", "lpt3", "lpt4", "lpt5", "lpt6", "lpt7", "lpt8", "lpt9"
  }

  /** The class `[a-z0-9]`. */
  predicate IsSlugAlnum(c: char)
  {
    ('a' <= c <= 'z') || ('0' <= c <= '9')
  }

  predicate IsSlugChar(c: char)
  {
    IsSlugAlnum(c) || c == '_'
  }

  predicate SlugChars(s: string)
  {
    forall i :: 0 <= i < |s| ==> IsSlugChar(s[i])
  }

  predicate NoDoubleUnderscore(s: string)
  {
    forall i :: 0 <= i < |s| - 1 ==> s[i] != '_' || s[i + 1] != '_'
  }

  predicate NoEdgeUnderscore(s: string)
  {
    s != [] ==> s[0] != '_' && s[|s| - 1] != '_'
  }

  /** Everything a slug promises a caller: the shape of a base name. */
  predicate WellFormedSlug(s: string)
  {
    s != [] && |s| <= MaxSlugLen && SlugChars(s) && NoDoubleUnderscore(s) && NoEdgeUnderscore(s)
    && s !in ReservedBasenames
  }

  /** The characters of `s` in `[a-z0-9]`, in order. */
  function Alnums(s: string): string
  {
    if s == [] then [] else (if IsSlugAlnum(s[0]) then [s[0]] else []) + Alnums(s[1..])
  }

  /** `.replace(/[^a-z0-9]+/g, '_')`: every maximal run of characters outside
      `[a-z0-9]` becomes one `_`. `inRun` says that the character before `s`
      belonged to such a run, whose `_` has already been emitted. */
  function CollapseRuns(s: string, inRun: bool): (r: string)
    ensures |r| <= |s|
    ensures SlugChars(r) && NoDoubleUnderscore(r)
    ensures inRun && r != [] ==> r[0] != '_'
    ensures s != [] && !inRun && !IsSlugAlnum(s[0]) ==> r != [] && r[0] == '_'
  {
    if s == [] then []
    else if IsSlugAlnum(s[0]) then [s[0]] + CollapseRuns(s[1..], false)
    else if inRun then CollapseRuns(s[1..], true)
    else "_" + CollapseRuns(s[1..], true)
  }

  /** Drops every leading `_` (the `^_+` half of `/^_+|_+$/g`). */
  function TrimLeading(s: string): (r: string)
    ensures |r| <= |s| && r == s[|s| - |r|..]
    ensures forall i :: 0 <= i < |s| - |r| ==> s[i] == '_'
    ensures r != [] ==> r[0] != '_'
  {
    if s != [] && s[0] == '_' then TrimLeading(s[1..]) else s
  }

  /** Drops every trailing `_` (the `_+$` half of `/^_+|_+$/g`, and the
      `/_+$/` applied after truncation). */
  function TrimTrailing(s: string): (r: string)
    ensures |r| <= |s| && r == s[..|r|]
    ensures forall i :: |r| <= i < |s| ==> s[i] == '_'
    ensures r != [] ==> r[|r| - 1] != '_'
    ensures s != [] && s[0] != '_' ==> r != []
  {
    if s != [] && s[|s| - 1] == '_' then TrimTrailing(s[..|s| - 1]) else s
  }

  /** `.replace(/^_+|_+$/g, '')`. */
  function TrimUnderscores(s: string): (r: string)
    requires SlugChars(s) && NoDoubleUnderscore(s)
    ensures SlugChars(r) && NoDoubleUnderscore(r) && NoEdgeUnderscore(r)
  {
    var leading := TrimLeading(s);
    SliceKeepsShape(s, |s| - |leading|, |s|);
    SliceKeepsShape(leading, 0, |TrimTrailing(leading)|);
    TrimTrailing(leading)
  }

  /** The title lowercased, collapsed and trimmed: the first line of `slugify`. */
  function Clean(title: string): (r: string)
    ensures SlugChars(r) && NoDoubleUnderscore(r) && NoEdgeUnderscore(r)
  {
    TrimUnderscores(CollapseRuns(LowerString(title), false))
  }

  /** The slug shape without the length bound and the reserved-name rule. */
  predicate Shaped(s: string)
  {
    s != [] && SlugChars(s) && NoDoubleUnderscore(s) && NoEdgeUnderscore(s)
  }

  /** Substitutes the fixed base name for an empty cleaned title. */
  function WithFallback(s: string): (r: string)
    requires SlugChars(s) && NoDoubleUnderscore(s) && NoEdgeUnderscore(s)
    ensures Shaped(r)
    ensures s != [] ==> r == s
    ensures s == [] ==> r == Fallback
  {
    if s == [] then Fallback else s
  }

  /** Cuts `s` to `MaxSlugLen` characters and drops the `_` the cut may
      leave at the end. */
  function Truncate(s: string): (r: string)
    requires Shaped(s)
    ensures Shaped(r) && |r| <= MaxSlugLen
    ensures |r| <= |s| && r == s[..|r|]
    ensures |s| <= MaxSlugLen ==> r == s
    ensures |s| > MaxSlugLen ==> r == TrimTrailing(s[..MaxSlugLen]) && |r| >= MaxSlugLen - 1
  {
    if |s| > MaxSlugLen then
      SliceKeepsShape(s, 0, MaxSlugLen);
      var r := TrimTrailing(s[..MaxSlugLen]);
      SliceKeepsShape(s[..MaxSlugLen], 0, |r|);
      r
    else s
  }

  /** Appends `_chatgpt` to a reserved device name. */
  function EscapeReserved(s: string): (r: string)
    requires Shaped(s) && |s| <= MaxSlugLen
    ensures WellFormedSlug(r)
    ensures s !in ReservedBasenames ==> r == s
    ensures s in ReservedBasenames ==> r == s + ReservedSuffix
  {
    ReservedAreShort(s);
    if s in ReservedBasenames then s + ReservedSuffix else s
  }

  /** `slugify(title)`: lowercase, collapse, trim, fall back when empty,
      truncate, then escape a reserved name, in that order. */
  function Slugify(title: string): (r: string)
    ensures WellFormedSlug(r)
  {
    EscapeReserved(Truncate(WithFallback(Clean(title))))
  }

  /** A contiguous piece of a string keeps its character set and never gains
      a doubled `_`. */
  lemma SliceKeepsShape(s: string, a: nat, b: nat)
    requires a <= b <= |s|
    ensures SlugChars(s) ==> SlugChars(s[a..b])
    ensures NoDoubleUnderscore(s) ==> NoDoubleUnderscore(s[a..b])
  {
    forall i | 0 <= i < b - a ensures s[a..b][i] == s[a + i] { }
  }

  lemma ReservedAreShort(s: string)
    ensures s in ReservedBasenames ==> 3 <= |s| <= 4 && SlugChars(s) && NoEdgeUnderscore(s)
  {
  }

  /** Collapsing keeps exactly the `[a-z0-9]` characters of its input, in
      order: only the runs of other characters change. */
  lemma {:induction false} CollapseKeepsAlnums(s: string, inRun: bool)
    ensures Alnums(CollapseRuns(s, inRun)) == Alnums(s)
  {
    if s != [] {
      CollapseKeepsAlnums(s[1..], !IsSlugAlnum(s[0]));
      if IsSlugAlnum(s[0]) {
        assert CollapseRuns(s, inRun) == [s[0]] + CollapseRuns(s[1..], false);
        assert ([s[0]] + CollapseRuns(s[1..], false))[1..] == CollapseRuns(s[1..], false);
      } else if !inRun {
        assert ("_" + CollapseRuns(s[1..], true))[1..] == CollapseRuns(s[1..], true);
      }
    }
  }

  /** Collapsing is the identity on a string that already has the slug shape. */
  lemma {:induction false} CollapseFixesSlug(s: string, inRun: bool)
    requires SlugChars(s) && NoDoubleUnderscore(s)
    requires inRun && s != [] ==> s[0] != '_'
    ensures CollapseRuns(s, inRun) == s
  {
    if s != [] {
      SliceKeepsShape(s, 1, |s|);
      CollapseFixesSlug(s[1..], !IsSlugAlnum(s[0]));
    }
  }

  lemma LowerFixesSlugChars(s: string)
    requires SlugChars(s)
    ensures LowerString(s) == s
  {
  }

  /** Cleaning is the identity on a string that already has the slug shape. */
  lemma CleanFixesShaped(s: string)
    requires Shaped(s)
    ensures Clean(s) == s
  {
    LowerFixesSlugChars(s);
    CollapseFixesSlug(s, false);
    assert TrimLeading(s) == s;
    assert TrimTrailing(s) == s;
  }

  /** Slugify is idempotent: a slug is its own slug. */
  lemma SlugifyIdempotent(title: string)
    ensures Slugify(Slugify(title)) == Slugify(title)
  {
    CleanFixesShaped(Slugify(title));
  }

  /** A title with nothing in `[a-z0-9]` cleans to the empty string. */
  lemma CleanNoAlnums(title: string)
    requires forall i :: 0 <= i < |title| ==> !IsSlugAlnum(ToLower(title[i]))
    ensures Clean(title) == []
  {
    var collapsed := CollapseRuns(LowerString(title), false);
    CollapseKeepsAlnums(LowerString(title), false);
    NoAlnums(LowerString(title));
    AllUnderscore(collapsed);
    assert TrimLeading(collapsed) == [];
  }

  /** A title with nothing in `[a-z0-9]` falls back to the fixed base name. */
  lemma SlugifyNoAlnums(title: string)
    requires forall i :: 0 <= i < |title| ==> !IsSlugAlnum(ToLower(title[i]))
    ensures Slugify(title) == Fallback
  {
    CleanNoAlnums(title);
    FallbackIsSlug();
  }

  /** The fallback base name is itself a well-formed slug. */
  lemma FallbackIsSlug()
    ensures WithFallback([]) == Fallback
    ensures Shaped(Fallback) && Truncate(Fallback) == Fallback
    ensures EscapeReserved(Fallback) == Fallback
  {
    assert Shaped(Fallback);
  }

  lemma {:induction false} NoAlnums(s: string)
    requires forall i :: 0 <= i < |s| ==> !IsSlugAlnum(s[i])
    ensures Alnums(s) == []
  {
    if s != [] {
      NoAlnums(s[1..]);
    }
  }

  lemma {:induction false} AllUnderscore(s: string)
    requires SlugChars(s) && Alnums(s) == []
    ensures forall i :: 0 <= i < |s| ==> s[i] == '_'
  {
    if s != [] {
      AllUnderscore(s[1..]);
      forall i | 0 <= i < |s| ensures s[i] == '_' {
        if i > 0 { assert s[i] == s[1..][i - 1]; }
      }
    }
  }

  lemma SlugifyExclamations()
    ensures Slugify("!!!") == "chatgpt_conversation"
  {
    SlugifyNoAlnums("!!!");
  }

  lemma SlugifyEmpty()
    ensures Slugify("") == "chatgpt_conversation"
  {
    SlugifyNoAlnums("");
  }

  /** A 200-character title of `a` is cut to exactly 120 characters. */
  lemma SlugifyLongTitle()
    ensures |Slugify(seq(200, _ => 'a'))| == 120
  {
    var t: string := seq(200, _ => 'a');
    CleanFixesShaped(t);
    assert TrimTrailing(t[..120]) == t[..120];
  }

  /** The reserved-name check runs last: `CON` becomes `con_chatgpt`. */
  lemma SlugifyReserved()
    ensures Slugify("CON") == "con_chatgpt"
  {
    CleanCon("CON");
    SlugifyOfShaped("CON", "con");
    EscapeCon("con");
  }

  lemma CleanCon(t: string)
    requires t == "CON"
    ensures Clean(t) == "con" && Shaped("con")
  {
    assert Shaped("con");
    assert LowerString(t) == "con";
    CleanFixesShaped("con");
  }

  lemma EscapeCon(c: string)
    requires c == "con"
    ensures Shaped(c) && |c| <= MaxSlugLen && EscapeReserved(c) == "con_chatgpt"
  {
    assert Shaped(c);
    assert c in ReservedBasenames;
  }

  /** A title that cleans to a short non-empty slug keeps it, up to the
      reserved-name rule. */
  lemma SlugifyOfShaped(t: string, c: string)
    requires Clean(t) == c && Shaped(c) && |c| <= MaxSlugLen
    ensures Slugify(t) == EscapeReserved(c)
  {
  }

  /** A run of alphanumerics passes through collapsing unchanged. */
  lemma {:induction false} CollapseAlnumPrefix(a: string, b: string, inRun: bool)
    requires forall i :: 0 <= i < |a| ==> IsSlugAlnum(a[i])
    ensures CollapseRuns(a + b, inRun) == a + CollapseRuns(b, inRun && a == [])
  {
    if a != [] {
      assert (a + b)[0] == a[0] && IsSlugAlnum(a[0]);
      assert (a + b)[1..] == a[1..] + b;
      CollapseAlnumPrefix(a[1..], b, false);
      assert CollapseRuns(a + b, inRun) == [a[0]] + CollapseRuns(a[1..] + b, false);
      assert a == [a[0]] + a[1..];
    } else {
      assert a + b == b;
    }
  }

  lemma CollapseWorld(s: string)
    requires s == " world!"
    ensures CollapseRuns(s, false) == "_world_"
  {
    assert CollapseRuns("!", false) == "_";
    CollapseAlnumPrefix("world", "!", true);
    assert s[1..] == "world" + "!";
  }

  lemma CollapseHelloWorld(s: string)
    requires s == "hello world!"
    ensures CollapseRuns(s, false) == "hello_world_"
  {
    CollapseWorld(s[5..]);
    CollapseAlnumPrefix("hello", s[5..], false);
    assert s == "hello" + s[5..];
  }

  lemma LowerHelloWorld()
    ensures LowerString("Hello World!") == "hello world!"
  {
  }

  lemma TrimHelloWorld()
    ensures TrimUnderscores("hello_world_") == "hello_world"
  {
    assert TrimLeading("hello_world_") == "hello_world_";
    assert TrimTrailing("hello_world_") == "hello_world";
  }

  lemma CleanHelloWorld(title: string)
    requires title == "Hello World!"
    ensures Clean(title) == "hello_world"
  {
    LowerHelloWorld();
    CollapseHelloWorld("hello world!");
    TrimHelloWorld();
  }

  /** A title whose cleaned form is non-empty, short enough and not reserved
      slugifies to exactly that cleaned form. */
  lemma SlugifyIsClean(title: string)
    requires Clean(title) != [] && |Clean(title)| <= MaxSlugLen
    requires Clean(title) !in ReservedBasenames
    ensures Slugify(title) == Clean(title)
  {
  }

  lemma SlugifyHelloWorld(title: string)
    requires title == "Hello World!"
    ensures Slugify(title) == "hello_world"
  {
    CleanHelloWorld(title);
    SlugifyIsClean(title);
  }

  /** A run of characters outside `[a-z0-9]` collapses to one `_`, or to
      nothing when the run before it already emitted one. */
  lemma {:induction false} CollapseOtherPrefix(a: string, b: string, inRun: bool)
    requires a != [] && forall i :: 0 <= i < |a| ==> !IsSlugAlnum(a[i])
    ensures CollapseRuns(a + b, inRun) == (if inRun then "" else "_") + CollapseRuns(b, true)
  {
    assert (a + b)[0] == a[0];
    assert (a + b)[1..] == a[1..] + b;
    if |a| > 1 {
      CollapseOtherPrefix(a[1..], b, true);
    } else {
      assert a[1..] + b == b;
    }
  }

  /** A separator run followed by a word collapses to `_` and the word. */
  lemma CollapseSepWord(a: string, w: string, rest: string)
    requires a != [] && forall i :: 0 <= i < |a| ==> !IsSlugAlnum(a[i])
    requires w != [] && forall i :: 0 <= i < |w| ==> IsSlugAlnum(w[i])
    ensures CollapseRuns(a + (w + rest), false) == "_" + w + CollapseRuns(rest, false)
  {
    CollapseAlnumPrefix(w, rest, true);
    CollapseOtherPrefix(a, w + rest, false);
    AppendAssoc("_", w, CollapseRuns(rest, false));
  }

  /** A final separator run collapses to one `_`. */
  lemma CollapseSepEnd(c: string)
    requires c != [] && forall i :: 0 <= i < |c| ==> !IsSlugAlnum(c[i])
    ensures CollapseRuns(c, false) == "_"
  {
    assert c + [] == c;
    CollapseOtherPrefix(c, [], false);
  }

  /** A title that collapses to `_m_`, with `m` free of edge underscores,
      cleans to `m`. */
  lemma CleanOfCollapsed(title: string, m: string)
    requires CollapseRuns(LowerString(title), false) == "_" + m + "_"
    requires m != [] && m[0] != '_' && m[|m| - 1] != '_'
    ensures Clean(title) == m
  {
    var x := CollapseRuns(LowerString(title), false);
    TrimOneEach(x, m);
  }

  lemma TrimOneEach(x: string, m: string)
    requires SlugChars(x) && NoDoubleUnderscore(x)
    requires x == "_" + m + "_" && m != [] && m[0] != '_' && m[|m| - 1] != '_'
    ensures TrimUnderscores(x) == m
  {
    TrimLeadingOne(x, m);
    TrimTrailingOne(m);
  }

  lemma TrimLeadingOne(x: string, m: string)
    requires x == "_" + m + "_" && m != [] && m[0] != '_'
    ensures TrimLeading(x) == m + "_"
  {
    assert x[1..] == m + "_";
  }

  lemma TrimTrailingOne(m: string)
    requires m != [] && m[|m| - 1] != '_'
    ensures TrimTrailing(m + "_") == m
  {
    assert (m + "_")[..|m|] == m;
  }

  lemma LowerRocketPlan(title: string)
    requires title == "  \U{1F680} Rocket  Plan "
    ensures LowerString(title) == "  \U{1F680} " + ("rocket" + ("  " + ("plan" + " ")))
  {
  }

  lemma CollapseRocketPlan(s: string)
    requires s == "  \U{1F680} " + ("rocket" + ("  " + ("plan" + " ")))
    ensures CollapseRuns(s, false) == "_" + "rocket_plan" + "_"
  {
    CollapseSepWord("  \U{1F680} ", "rocket", "  " + ("plan" + " "));
    CollapseSepWord("  ", "plan", " ");
    CollapseSepEnd(" ");
  }

  /** Emoji and the spaces around them vanish with the other separators. */
  lemma SlugifyRocketPlan(title: string)
    requires title == "  \U{1F680} Rocket  Plan "
    ensures Slugify(title) == "rocket_plan"
  {
    LowerRocketPlan(title);
    CollapseRocketPlan(LowerString(title));
    CleanOfCollapsed(title, "rocket_plan");
    SlugifyIsClean(title);
  }
}
