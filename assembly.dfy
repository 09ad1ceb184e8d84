/** The Markdown document that `scrape` (src/index.ts) assembles from the
    page title, the share URL, the retrieval time and the scraped messages.
    The Turndown conversion of a message's HTML is a parameter: only the
    converter's own steps around it are modelled. */
module Assembly {
  import opened Text
  import opened Sanitize

  /** One scraped message: its author role and its inner HTML. */
  datatype Message = Message(role: string, html: string)

  const NoMessagesError: string := "No messages were found in the shared conversation."

  /** Three line feeds in a row start at index `i` of `s`. */
  predicate TripleNewlineAt(s: string, i: nat)
  {
    i + 2 < |s| && s[i] == '\n' && s[i + 1] == '\n' && s[i + 2] == '\n'
  }

  /** `s` has no run of three or more line feeds. */
  predicate NoTripleNewline(s: string)
  {
    forall i: nat :: i < |s| ==> !TripleNewlineAt(s, i)
  }

  /** The number of line feeds at the start of `s`. */
  function NewlineRun(s: string): (n: nat)
    ensures n <= |s|
    ensures forall j :: 0 <= j < n ==> s[j] == '\n'
    ensures n < |s| ==> s[n] != '\n'
  {
    if s != [] && s[0] == '\n' then 1 + NewlineRun(s[1..]) else 0
  }

  /** `.replace(/\n{3,}/g, '\n\n')`: scanning left to right, each maximal
      run of three or more line feeds becomes two. */
  function CollapseNewlines(s: string): (r: string)
    ensures |r| <= |s|
    ensures r == [] <==> s == []
    decreases |s|
  {
    if s == [] then ""
    else if NewlineRun(s) >= 3 then "\n\n" + CollapseNewlines(s[NewlineRun(s)..])
    else [s[0]] + CollapseNewlines(s[1..])
  }

  /** The result is no longer than the input, has no run of three line
      feeds, and starts with as many line feeds as the input does, up to
      two. */
  lemma {:induction false} CollapseShape(s: string)
    ensures var r := CollapseNewlines(s);
      && |r| <= |s|
      && NoTripleNewline(r)
      && NewlineRun(r) == if NewlineRun(s) >= 3 then 2 else NewlineRun(s)
    decreases |s|
  {
    if s == [] {
    } else if NewlineRun(s) >= 3 {
      var n := NewlineRun(s);
      var rest := CollapseNewlines(s[n..]);
      CollapseShape(s[n..]);
      assert NewlineRun(rest) == 0;
      var r := "\n\n" + rest;
      assert r[1..][1..] == rest;
      forall i: nat | i < |r|
        ensures !TripleNewlineAt(r, i)
      {
        if i >= 2 {
          assert !TripleNewlineAt(rest, i - 2);
        }
      }
    } else {
      var rest := CollapseNewlines(s[1..]);
      CollapseShape(s[1..]);
      var r := [s[0]] + rest;
      assert r[1..] == rest;
      forall i: nat | i < |r|
        ensures !TripleNewlineAt(r, i)
      {
        if i >= 1 {
          assert !TripleNewlineAt(rest, i - 1);
        }
      }
    }
  }

  /** Text with no run of three line feeds passes through unchanged. */
  lemma {:induction false} CollapseNoOp(s: string)
    requires NoTripleNewline(s)
    ensures CollapseNewlines(s) == s
  {
    if s != [] {
      assert NewlineRun(s) < 3 by {
        if |s| >= 3 {
          assert !TripleNewlineAt(s, 0);
        }
      }
      assert NoTripleNewline(s[1..]) by {
        forall i: nat | i < |s[1..]|
          ensures !TripleNewlineAt(s[1..], i)
        {
          assert !TripleNewlineAt(s, i + 1);
        }
      }
      CollapseNoOp(s[1..]);
    }
  }

  /** `k` line feeds. */
  function Newlines(k: nat): (r: string)
    ensures |r| == k && forall j :: 0 <= j < k ==> r[j] == '\n'
  {
    seq(k, _ => '\n')
  }

  /** A character other than a line feed is copied, and the scan goes on
      after it. */
  lemma CollapseOther(c: char, t: string)
    requires c != '\n'
    ensures CollapseNewlines([c] + t) == [c] + CollapseNewlines(t)
  {
    assert ([c] + t)[1..] == t;
  }

  /** A maximal run of `k` line feeds becomes two line feeds when `k >= 3`
      and is copied as it is otherwise; the scan goes on after the run. */
  lemma CollapseRun(k: nat, t: string)
    requires t == [] || t[0] != '\n'
    ensures CollapseNewlines(Newlines(k) + t)
      == (if k >= 3 then "\n\n" else Newlines(k)) + CollapseNewlines(t)
  {
    if k >= 3 {
      CollapseLongRun(k, t);
    } else {
      CollapseShortRun(k, t);
    }
  }

  lemma CollapseLongRun(k: nat, t: string)
    requires k >= 3 && (t == [] || t[0] != '\n')
    ensures CollapseNewlines(Newlines(k) + t) == "\n\n" + CollapseNewlines(t)
  {
    var s := Newlines(k) + t;
    NewlineRunOf(k, t);
    assert s[k..] == t;
  }

  lemma {:induction false} CollapseShortRun(k: nat, t: string)
    requires k < 3 && (t == [] || t[0] != '\n')
    ensures CollapseNewlines(Newlines(k) + t) == Newlines(k) + CollapseNewlines(t)
  {
    if k == 0 {
      assert Newlines(k) + t == t;
    } else {
      var u := Newlines(k - 1) + t;
      assert Newlines(k) + t == ['\n'] + u by {
        assert Newlines(k) == ['\n'] + Newlines(k - 1);
      }
      NewlineRunOf(k - 1, t);
      CollapseNewlineHead(u);
      CollapseShortRun(k - 1, t);
      assert ['\n'] + (Newlines(k - 1) + CollapseNewlines(t)) == Newlines(k) + CollapseNewlines(t) by {
        assert Newlines(k) == ['\n'] + Newlines(k - 1);
      }
    }
  }

  /** A line feed followed by at most one more is copied. */
  lemma CollapseNewlineHead(u: string)
    requires NewlineRun(u) < 2
    ensures CollapseNewlines(['\n'] + u) == ['\n'] + CollapseNewlines(u)
  {
    var s := ['\n'] + u;
    assert s[1..] == u;
  }

  lemma {:induction false} NewlineRunOf(k: nat, t: string)
    requires t == [] || t[0] != '\n'
    ensures NewlineRun(Newlines(k) + t) == k
  {
    if k > 0 {
      assert (Newlines(k) + t)[1..] == Newlines(k - 1) + t;
      NewlineRunOf(k - 1, t);
    } else {
      assert Newlines(k) + t == t;
    }
  }

  /** Collapsing twice is collapsing once. */
  lemma CollapseIdempotent(s: string)
    ensures CollapseNewlines(CollapseNewlines(s)) == CollapseNewlines(s)
  {
    CollapseShape(s);
    CollapseNoOp(CollapseNewlines(s));
  }

  /** The number of JavaScript whitespace characters at the end of `s`. */
  function TrailingSpaces(s: string): (n: nat)
    ensures n <= |s|
    ensures forall j :: |s| - n <= j < |s| ==> IsJsSpace(s[j])
    ensures n < |s| ==> !IsJsSpace(s[|s| - 1 - n])
  {
    if s != [] && IsJsSpace(s[|s| - 1]) then 1 + TrailingSpaces(s[..|s| - 1]) else 0
  }

  /** `String.prototype.trim`: the part of `s` between its leading and its
      trailing whitespace. It keeps every non-whitespace character of `s`
      and neither starts nor ends with whitespace. */
  function Trim(s: string): (r: string)
    ensures |r| <= |s|
    ensures r == [] || (!IsJsSpace(r[0]) && !IsJsSpace(r[|r| - 1]))
  {
    var t := s[SpaceRun(s)..];
    t[..|t| - TrailingSpaces(t)]
  }

  lemma TrimShape(s: string)
    ensures var r := Trim(s);
      && OccursAt(s, r, SpaceRun(s))
      && (r == [] || (!IsJsSpace(r[0]) && !IsJsSpace(r[|r| - 1])))
      && forall j :: 0 <= j < |s| && !IsJsSpace(s[j]) ==> SpaceRun(s) <= j < SpaceRun(s) + |r|
  {
    var a := SpaceRun(s);
    var r := Trim(s);
    assert s[a..a + |r|] == r;
  }

  /** Any stretch of a text with no triple line feed has none either. */
  lemma NoTripleSlice(s: string, a: nat, b: nat)
    requires a <= b <= |s|
    requires NoTripleNewline(s)
    ensures NoTripleNewline(s[a..b])
  {
    var t := s[a..b];
    forall i: nat | i < |t|
      ensures !TripleNewlineAt(t, i)
    {
      assert !TripleNewlineAt(s, a + i);
    }
  }

  /** A message body: the Turndown output of the cleaned HTML with runs of
      line feeds collapsed and the ends trimmed. */
  function Body(turndown: string -> string, html: string): string
  {
    Trim(CollapseNewlines(turndown(CleanHtml(html))))
  }

  /** A body has no run of three line feeds and no whitespace at either
      end, whatever the converter produced. */
  lemma BodyShape(turndown: string -> string, html: string)
    ensures var r := Body(turndown, html);
      && NoTripleNewline(r)
      && (r == [] || (!IsJsSpace(r[0]) && !IsJsSpace(r[|r| - 1])))
  {
    var x := turndown(CleanHtml(html));
    assert Body(turndown, html) == Trim(CollapseNewlines(x));
    TidyShape(x);
  }

  lemma TidyShape(x: string)
    ensures var r := Trim(CollapseNewlines(x));
      && NoTripleNewline(r)
      && (r == [] || (!IsJsSpace(r[0]) && !IsJsSpace(r[|r| - 1])))
  {
    CollapseShape(x);
    TrimKeepsNoTriple(CollapseNewlines(x));
  }

  lemma TrimKeepsNoTriple(c: string)
    requires NoTripleNewline(c)
    ensures var r := Trim(c);
      && NoTripleNewline(r)
      && (r == [] || (!IsJsSpace(r[0]) && !IsJsSpace(r[|r| - 1])))
  {
    TrimShape(c);
    var r := Trim(c);
    NoTripleSlice(c, SpaceRun(c), SpaceRun(c) + |r|);
  }

  /** The heading of a message: `Assistant` exactly for the role
      `assistant`, `User` for every other role. */
  function Heading(role: string): (h: string)
    ensures h == "## Assistant" <==> role == "assistant"
    ensures h == "## User" <==> role != "assistant"
  {
    if role == "assistant" then "## Assistant" else "## User"
  }

  /** The five header lines. */
  function HeaderLines(title: string, url: string, retrievedAt: string): seq<string>
  {
    ["# ChatGPT Conversation: " + StripTitlePrefix(title)] + [""] + ["Source: " + url] + ["Retrieved: " + retrievedAt] + [""]
  }

  /** The four lines a message contributes. */
  function Block(turndown: string -> string, m: Message): seq<string>
  {
    [Heading(m.role)] + [""] + [Body(turndown, m.html)] + [""]
  }

  /** The lines `blockOf` gives for each message, in input order. */
  function Concat(blockOf: Message -> seq<string>, ms: seq<Message>): seq<string>
  {
    if ms == [] then [] else Concat(blockOf, ms[..|ms| - 1]) + blockOf(ms[|ms| - 1])
  }

  /** The lines of all messages, in input order. */
  function MessageLines(turndown: string -> string, ms: seq<Message>): seq<string>
  {
    Concat(m => Block(turndown, m), ms)
  }

  /** The document: the header and message lines joined by line feeds, with
      Unicode line and paragraph separators turned into line feeds. */
  function Document(title: string, url: string, retrievedAt: string, turndown: string -> string, ms: seq<Message>): (d: string)
    ensures forall i :: 0 <= i < |d| ==> !IsUnicodeLineBreak(d[i])
  {
    NormalizeLineTerminators(Join(HeaderLines(title, url, retrievedAt) + MessageLines(turndown, ms), "\n"))
  }

  /** The assembly step of `scrape`: an empty message list is an error and
      produces no document; otherwise the lines are pushed one by one and
      joined. */
  method Assemble(title: string, url: string, retrievedAt: string, turndown: string -> string, messages: seq<Message>)
    returns (r: Result<string, string>)
    ensures r.Err? <==> messages == []
    ensures r.Err? ==> r.error == NoMessagesError
    ensures r.Ok? ==> r.value == Document(title, url, retrievedAt, turndown, messages)
  {
    if |messages| == 0 {
      return Err(NoMessagesError);
    }
    var lines: seq<string> := [];
    var titleWithoutPrefix := StripTitlePrefix(title);
    lines := lines + ["# ChatGPT Conversation: " + titleWithoutPrefix];
    lines := lines + [""];
    lines := lines + ["Source: " + url];
    lines := lines + ["Retrieved: " + retrievedAt];
    lines := lines + [""];
    HeaderPushed(title, url, retrievedAt, titleWithoutPrefix, lines);
    for i := 0 to |messages|
      invariant lines == HeaderLines(title, url, retrievedAt) + MessageLines(turndown, messages[..i])
    {
      var msg := messages[i];
      ghost var before := lines;
      lines := lines + [Heading(msg.role)];
      lines := lines + [""];
      var markdown := turndown(CleanHtml(msg.html));
      markdown := Trim(CollapseNewlines(markdown));
      lines := lines + [markdown];
      lines := lines + [""];
      PushStep(turndown, messages, i, HeaderLines(title, url, retrievedAt), before, markdown, lines);
    }
    assert messages[..|messages|] == messages;
    r := Ok(NormalizeLineTerminators(Join(lines, "\n")));
  }

  /** The five pushes before the loop give the header lines. */
  lemma HeaderPushed(title: string, url: string, retrievedAt: string, t: string, lines: seq<string>)
    requires t == StripTitlePrefix(title)
    requires lines == [] + ["# ChatGPT Conversation: " + t] + [""] + ["Source: " + url] + ["Retrieved: " + retrievedAt] + [""]
    ensures lines == HeaderLines(title, url, retrievedAt)
  {
  }

  /** The four pushes for message `i` extend the lines of the messages
      before it to the lines of the messages up to it. */
  lemma PushStep(turndown: string -> string, ms: seq<Message>, i: nat, header: seq<string>,
                 before: seq<string>, markdown: string, after: seq<string>)
    requires i < |ms|
    requires before == header + MessageLines(turndown, ms[..i])
    requires markdown == Trim(CollapseNewlines(turndown(CleanHtml(ms[i].html))))
    requires after == before + [Heading(ms[i].role)] + [""] + [markdown] + [""]
    ensures after == header + MessageLines(turndown, ms[..i + 1])
  {
    MessageLinesSnoc(turndown, ms, i);
    PushedBlock(turndown, ms[i], markdown);
    AppendFour(before, Heading(ms[i].role), "", markdown, "");
    AppendAssoc(header, MessageLines(turndown, ms[..i]), Block(turndown, ms[i]));
  }

  lemma AppendFour<T>(s: seq<T>, a: T, b: T, c: T, d: T)
    ensures s + [a] + [b] + [c] + [d] == s + ([a] + [b] + [c] + [d])
  {
  }

  lemma PushedBlock(turndown: string -> string, m: Message, markdown: string)
    requires markdown == Trim(CollapseNewlines(turndown(CleanHtml(m.html))))
    ensures [Heading(m.role)] + [""] + [markdown] + [""] == Block(turndown, m)
  {
    assert markdown == Body(turndown, m.html);
  }

  lemma MessageLinesSnoc(turndown: string -> string, ms: seq<Message>, i: nat)
    requires i < |ms|
    ensures MessageLines(turndown, ms[..i + 1]) == MessageLines(turndown, ms[..i]) + Block(turndown, ms[i])
  {
    assert ms[..i + 1][..i] == ms[..i];
  }

  /** With four lines per message, message `i` owns lines `4i .. 4i+3`. */
  lemma {:induction false} ConcatLayout(blockOf: Message -> seq<string>, ms: seq<Message>)
    requires forall m :: |blockOf(m)| == 4
    ensures |Concat(blockOf, ms)| == 4 * |ms|
    ensures forall i :: 0 <= i < |ms| ==> Concat(blockOf, ms)[4 * i..4 * i + 4] == blockOf(ms[i])
  {
    if ms != [] {
      var pre := ms[..|ms| - 1];
      ConcatLayout(blockOf, pre);
      var a := Concat(blockOf, pre);
      var b := blockOf(ms[|ms| - 1]);
      forall i | 0 <= i < |ms|
        ensures (a + b)[4 * i..4 * i + 4] == blockOf(ms[i])
      {
        if i < |pre| {
          assert (a + b)[4 * i..4 * i + 4] == a[4 * i..4 * i + 4];
          assert pre[i] == ms[i];
        } else {
          assert (a + b)[4 * i..4 * i + 4] == b;
        }
      }
    }
  }

  /** Message `i` owns lines `4i .. 4i+3`: its heading, a blank line, its
      body and a blank line. */
  lemma MessageLinesLayout(turndown: string -> string, ms: seq<Message>)
    ensures |MessageLines(turndown, ms)| == 4 * |ms|
    ensures forall i :: 0 <= i < |ms| ==>
      MessageLines(turndown, ms)[4 * i..4 * i + 4] == [Heading(ms[i].role)] + [""] + [Body(turndown, ms[i].html)] + [""]
  {
    ConcatLayout(m => Block(turndown, m), ms);
  }

  lemma {:induction false} JoinAppend(a: seq<string>, b: seq<string>, sep: string)
    requires a != [] && b != []
    ensures Join(a + b, sep) == Join(a, sep) + sep + Join(b, sep)
  {
    if |a| == 1 {
      assert (a + b)[0] == a[0];
      assert (a + b)[1..] == b;
    } else {
      assert (a + b)[0] == a[0];
      assert (a + b)[1..] == a[1..] + b;
      JoinAppend(a[1..], b, sep);
    }
  }

  /** The header as one text. */
  function HeaderText(title: string, url: string, retrievedAt: string): string
  {
    "# ChatGPT Conversation: " + StripTitlePrefix(title) + "\n\nSource: " + url + "\nRetrieved: " + retrievedAt + "\n"
  }

  /** A message as one text. */
  function BlockText(turndown: string -> string, m: Message): string
  {
    Heading(m.role) + "\n\n" + Body(turndown, m.html) + "\n"
  }

  /** The texts `textOf` gives for each message, each preceded by a line
      feed, in input order. */
  function TextConcat(textOf: Message -> string, ms: seq<Message>): string
  {
    if ms == [] then "" else TextConcat(textOf, ms[..|ms| - 1]) + "\n" + textOf(ms[|ms| - 1])
  }

  /** The messages as one text. */
  function MessagesText(turndown: string -> string, ms: seq<Message>): string
  {
    TextConcat(m => BlockText(turndown, m), ms)
  }

  lemma JoinCons(x: string, rest: seq<string>, sep: string)
    requires rest != []
    ensures Join([x] + rest, sep) == x + sep + Join(rest, sep)
  {
    assert ([x] + rest)[1..] == rest;
  }

  lemma JoinFour(a: string, b: string, c: string, d: string, sep: string)
    ensures Join([a] + [b] + [c] + [d], sep) == a + sep + b + sep + c + sep + d
  {
    assert [a] + [b] + [c] + [d] == [a] + ([b] + ([c] + [d]));
    JoinCons(a, [b] + ([c] + [d]), sep);
    JoinCons(b, [c] + [d], sep);
    JoinCons(c, [d], sep);
  }

  lemma JoinFive(a: string, b: string, c: string, d: string, e: string, sep: string)
    ensures Join([a] + [b] + [c] + [d] + [e], sep) == a + sep + b + sep + c + sep + d + sep + e
  {
    assert [a] + [b] + [c] + [d] + [e] == [a] + ([b] + [c] + [d] + [e]);
    JoinCons(a, [b] + [c] + [d] + [e], sep);
    JoinFour(b, c, d, e, sep);
  }

  lemma JoinOfHeader(title: string, url: string, retrievedAt: string)
    ensures Join(HeaderLines(title, url, retrievedAt), "\n") == HeaderText(title, url, retrievedAt)
  {
    JoinOfHeaderWith(StripTitlePrefix(title), url, retrievedAt);
  }

  lemma JoinOfHeaderWith(t: string, url: string, retrievedAt: string)
    ensures Join(["# ChatGPT Conversation: " + t] + [""] + ["Source: " + url] + ["Retrieved: " + retrievedAt] + [""], "\n")
         == "# ChatGPT Conversation: " + t + "\n\nSource: " + url + "\nRetrieved: " + retrievedAt + "\n"
  {
    var a := "# ChatGPT Conversation: " + t;
    var c := "Source: " + url;
    var d := "Retrieved: " + retrievedAt;
    JoinFive(a, "", c, d, "", "\n");
    var x := a + "\n" + "" + "\n";
    assert x == a + "\n\n";
    assert x + c == a + "\n\nSource: " + url;
    var y := x + c + "\n" + d;
    assert y == a + "\n\nSource: " + url + "\nRetrieved: " + retrievedAt;
    assert y + "\n" + "" == y + "\n";
  }

  lemma JoinOfBlock(turndown: string -> string, m: Message)
    ensures Join(Block(turndown, m), "\n") == BlockText(turndown, m)
  {
    JoinOfLines(Heading(m.role), Body(turndown, m.html));
  }

  lemma JoinOfLines(h: string, b: string)
    ensures Join([h] + [""] + [b] + [""], "\n") == h + "\n\n" + b + "\n"
  {
    JoinFour(h, "", b, "", "\n");
  }

  /** Joining header lines and per-message lines is joining the header and
      appending each message's joined lines after a line feed. */
  lemma {:induction false} JoinConcat(h: seq<string>, blockOf: Message -> seq<string>, textOf: Message -> string, ms: seq<Message>)
    requires h != []
    requires forall m :: blockOf(m) != [] && Join(blockOf(m), "\n") == textOf(m)
    ensures Join(h + Concat(blockOf, ms), "\n") == Join(h, "\n") + TextConcat(textOf, ms)
  {
    if ms == [] {
      assert h + Concat(blockOf, ms) == h;
    } else {
      var pre := ms[..|ms| - 1];
      var last := ms[|ms| - 1];
      var a := h + Concat(blockOf, pre);
      JoinConcat(h, blockOf, textOf, pre);
      AppendAssoc(h, Concat(blockOf, pre), blockOf(last));
      JoinAppend(a, blockOf(last), "\n");
      AppendAssoc(Join(h, "\n"), TextConcat(textOf, pre) + "\n", textOf(last));
      AppendAssoc(Join(h, "\n"), TextConcat(textOf, pre), "\n");
    }
  }

  /** Joining the pushed lines gives the header text followed by each
      message's text in input order. */
  lemma DocumentText(title: string, url: string, retrievedAt: string, turndown: string -> string, ms: seq<Message>)
    ensures Document(title, url, retrievedAt, turndown, ms)
      == NormalizeLineTerminators(HeaderText(title, url, retrievedAt) + MessagesText(turndown, ms))
  {
    forall m
      ensures Block(turndown, m) != [] && Join(Block(turndown, m), "\n") == BlockText(turndown, m)
    {
      JoinOfBlock(turndown, m);
    }
    JoinOfHeader(title, url, retrievedAt);
    JoinConcat(HeaderLines(title, url, retrievedAt), m => Block(turndown, m), m => BlockText(turndown, m), ms);
  }

  /** The document opens with the header and contains no Unicode line or
      paragraph separator. */
  lemma DocumentStartsWithHeader(title: string, url: string, retrievedAt: string, turndown: string -> string, ms: seq<Message>)
    ensures var d := Document(title, url, retrievedAt, turndown, ms);
      && StartsWith(d, NormalizeLineTerminators(HeaderText(title, url, retrievedAt)))
      && forall i :: 0 <= i < |d| ==> !IsUnicodeLineBreak(d[i])
  {
    var ht := HeaderText(title, url, retrievedAt);
    DocumentText(title, url, retrievedAt, turndown, ms);
    NormalizeConcat(ht, MessagesText(turndown, ms));
  }

  lemma TextConcatOne(textOf: Message -> string, m: Message)
    ensures TextConcat(textOf, [m]) == "\n" + textOf(m)
  {
    assert [m][..0] == [];
  }

  lemma TextConcatTwo(header: string, textOf: Message -> string, m1: Message, m2: Message)
    ensures header + TextConcat(textOf, [m1, m2]) == header + "\n" + textOf(m1) + "\n" + textOf(m2)
  {
    assert [m1, m2][..1] == [m1];
    TextConcatOne(textOf, m1);
  }

  /** Two messages appear in input order, each under its own heading. */
  lemma DocumentOfTwo(title: string, url: string, retrievedAt: string, turndown: string -> string, m1: Message, m2: Message)
    ensures Document(title, url, retrievedAt, turndown, [m1, m2])
      == NormalizeLineTerminators(HeaderText(title, url, retrievedAt)
           + "\n" + BlockText(turndown, m1) + "\n" + BlockText(turndown, m2))
  {
    DocumentText(title, url, retrievedAt, turndown, [m1, m2]);
    TextConcatTwo(HeaderText(title, url, retrievedAt), m => BlockText(turndown, m), m1, m2);
  }

  /** A message whose body converts to nothing leaves three line feeds in a
      row after its heading, so the document as a whole may hold such a
      run even though no body does. */
  lemma EmptyBodyLeavesTripleNewline(title: string, url: string, retrievedAt: string, turndown: string -> string, m: Message)
    requires turndown(CleanHtml(m.html)) == ""
    ensures !NoTripleNewline(Document(title, url, retrievedAt, turndown, [m]))
  {
    var ht := HeaderText(title, url, retrievedAt);
    var b := Body(turndown, m.html);
    assert b == "";
    DocumentText(title, url, retrievedAt, turndown, [m]);
    TextConcatOne(m => BlockText(turndown, m), m);
    TripleAfterEmptyBody(ht, Heading(m.role), b, Document(title, url, retrievedAt, turndown, [m]));
  }

  lemma TripleAfterEmptyBody(ht: string, h: string, b: string, d: string)
    requires b == ""
    requires d == NormalizeLineTerminators(ht + ("\n" + (h + "\n\n" + b + "\n")))
    ensures TripleNewlineAt(d, |ht| + 1 + |h|)
  {
    var x := "\n" + (h + "\n\n" + b + "\n");
    var k := 1 + |h|;
    assert x[k] == '\n' && x[k + 1] == '\n' && x[k + 2] == '\n';
    NormalizeConcat(ht, x);
  }
}
