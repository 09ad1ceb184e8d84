/** The command-line scanner (`parseArgs`, src/index.ts): one pass over the
    arguments, left to right, with two flags that take the next argument
    as their value. */
module Cli {
  import opened Text
  import opened Sanitize
  import opened UniquePaths

  const DefaultTimeoutMs: int := 60000

  /** The parsed options: the share URL (empty when none was given), the
      timeout, the output file and the four switches. */
  datatype Options = Options(
    url: string,
    timeoutMs: int,
    outfile: Option<string>,
    quiet: bool,
    checkUpdates: bool,
    versionOnly: bool,
    generateHtml: bool)

  const Defaults: Options := Options("", DefaultTimeoutMs, None, false, false, false, true)

  /** The unsigned part of what `Number.parseInt(s, 10)` reads: the text
      after the leading whitespace and an optional sign. */
  function Unsigned(s: string): string
  {
    var t := DropSpaces(s);
    if t != [] && (t[0] == '-' || t[0] == '+') then t[1..] else t
  }

  /** `Number.parseInt(s, 10)`: leading whitespace is skipped, a sign is
      read, then the longest run of decimal digits; with no digit the
      result is `NaN`, here `None`. */
  function ParseIntPrefix(s: string): (r: Option<int>)
    ensures r.None? <==> DigitRun(Unsigned(s)) == 0
    ensures r.Some? ==> (r.value < 0 ==> DropSpaces(s)[0] == '-')
    ensures r.Some? ==> r.value == (if DropSpaces(s)[0] == '-' then -1 else 1) * ParseDecimal(Unsigned(s)[..DigitRun(Unsigned(s))])
  {
    var t := DropSpaces(s);
    var u := Unsigned(s);
    var n := DigitRun(u);
    if n == 0 then None
    else
      var v: int := ParseDecimal(u[..n]);
      Some(if t[0] == '-' then -v else v)
  }

  /** Whitespace, an optional sign, a run of digits and text that does not
      start with a digit read as the signed value of those digits. */
  lemma ParseIntOfDigits(ws: string, sign: string, digits: string, rest: string)
    requires forall i :: 0 <= i < |ws| ==> IsJsSpace(ws[i])
    requires sign == "" || sign == "-" || sign == "+"
    requires digits != [] && forall i :: 0 <= i < |digits| ==> IsDigit(digits[i])
    requires rest == [] || !IsDigit(rest[0])
    ensures var r := ParseIntPrefix(ws + sign + digits + rest);
      r.Some? && r.value == (if sign == "-" then -1 else 1) * ParseDecimal(digits)
  {
    var x := ws + sign + digits + rest;
    UnsignedOf(ws, sign, digits, rest);
    DigitRunOf(digits, rest);
    ParseIntOfParts(x, digits + rest, digits, sign == "-");
  }

  /** The value read from `x` once its unsigned part, its digits and its
      sign are known. */
  lemma ParseIntOfParts(x: string, u: string, digits: string, negative: bool)
    requires Unsigned(x) == u && DigitRun(u) == |digits| > 0 && u[..|digits|] == digits
    requires DropSpaces(x) != [] && (DropSpaces(x)[0] == '-' <==> negative)
    ensures ParseIntPrefix(x).Some?
    ensures ParseIntPrefix(x).value == (if negative then -1 else 1) * ParseDecimal(digits)
  {
  }

  /** What lies after the whitespace and the sign is the unsigned part. */
  lemma UnsignedOf(ws: string, sign: string, digits: string, rest: string)
    requires forall i :: 0 <= i < |ws| ==> IsJsSpace(ws[i])
    requires sign == "" || sign == "-" || sign == "+"
    requires digits != [] && IsDigit(digits[0])
    ensures Unsigned(ws + sign + digits + rest) == digits + rest
    ensures (digits + rest)[..|digits|] == digits
    ensures DropSpaces(ws + sign + digits + rest) != []
    ensures DropSpaces(ws + sign + digits + rest)[0] == '-' <==> sign == "-"
  {
    var u := digits + rest;
    var t := sign + u;
    AppendAssoc(ws + sign, digits, rest);
    AppendAssoc(ws, sign, u);
    DropSpacesOf(ws, t);
    if sign != "" {
      assert t[1..] == u;
    }
    assert u[..|digits|] == digits;
  }

  /** A printed number reads back as itself, whatever whitespace and sign
      stand before it and whatever non-digit text follows it. */
  lemma ParseIntOfNumeral(ws: string, sign: string, n: nat, rest: string)
    requires forall i :: 0 <= i < |ws| ==> IsJsSpace(ws[i])
    requires sign == "" || sign == "-" || sign == "+"
    requires rest == [] || !IsDigit(rest[0])
    ensures var r := ParseIntPrefix(ws + sign + Decimal(n) + rest);
      r.Some? && r.value == (if sign == "-" then -1 else 1) * n
  {
    ParseIntOfDigits(ws, sign, Decimal(n), rest);
    DecimalRoundTrip(n);
  }

  /** A printed number on its own reads back as itself. */
  lemma ParseIntOfDecimal(n: nat)
    ensures ParseIntPrefix(Decimal(n)) == Some(n)
  {
    var d := Decimal(n);
    assert DropSpaces(d) == d;
    assert d + [] == d;
    DigitRunOf(d, []);
    assert d[..|d|] == d;
    ParseIntOfParts(d, d, d, false);
    DecimalRoundTrip(n);
  }

  /** The timeout a `--timeout-ms` value gives: the number read, unless it
      is `NaN` or not positive, in which case the default. */
  function TimeoutFrom(value: string): (t: int)
    ensures t > 0
    ensures t != DefaultTimeoutMs ==> ParseIntPrefix(value) == Some(t)
    ensures ParseIntPrefix(value).Some? && ParseIntPrefix(value).value > 0 ==> t == ParseIntPrefix(value).value
    ensures ParseIntPrefix(value).None? || ParseIntPrefix(value).value <= 0 ==> t == DefaultTimeoutMs
  {
    match ParseIntPrefix(value)
    case Some(v) => if v > 0 then v else DefaultTimeoutMs
    case None => DefaultTimeoutMs
  }

  /** The argument after index `i`, or the empty string past the end. */
  function NextOrEmpty(args: seq<string>, i: nat): string
  {
    if i + 1 < |args| then args[i + 1] else ""
  }

  /** The cases of the `switch` on an argument; `Skip` is the empty
      argument, which the loop passes over. */
  datatype ArgKind = Skip | TimeoutFlag | OutfileFlag | QuietFlag | CheckUpdatesFlag | VersionFlag | NoHtmlFlag | Other

  function KindOf(arg: string): ArgKind
  {
    if arg == "" then Skip
    else if arg == "--timeout-ms" then TimeoutFlag
    else if arg == "--outfile" then OutfileFlag
    else if arg == "--quiet" then QuietFlag
    else if arg == "--check-updates" then CheckUpdatesFlag
    else if arg == "--version" || arg == "-v" then VersionFlag
    else if arg == "--no-html" then NoHtmlFlag
    else Other
  }

  /** How far one turn advances past an argument: the two flags that take
      a value also consume the argument after them. */
  function Stride(arg: string): (n: nat)
    ensures n == 2 <==> KindOf(arg) == TimeoutFlag || KindOf(arg) == OutfileFlag
    ensures 1 <= n <= 2
  {
    if KindOf(arg) == TimeoutFlag || KindOf(arg) == OutfileFlag then 2 else 1
  }

  /** One turn of the loop at index `i < |args|`: the index the next turn
      starts from and the options after this one. */
  function Step(args: seq<string>, i: nat, acc: Options): (r: (nat, Options))
    requires i < |args|
    ensures r.0 == i + Stride(args[i])
  {
    var arg := args[i];
    match KindOf(arg)
    case Skip => (i + 1, acc)
    case TimeoutFlag => (i + 2, acc.(timeoutMs := TimeoutFrom(NextOrEmpty(args, i))))
    case OutfileFlag => (i + 2, acc.(outfile := if i + 1 < |args| then Some(args[i + 1]) else None))
    case QuietFlag => (i + 1, acc.(quiet := true))
    case CheckUpdatesFlag => (i + 1, acc.(checkUpdates := true))
    case VersionFlag => (i + 1, acc.(versionOnly := true))
    case NoHtmlFlag => (i + 1, acc.(generateHtml := false))
    case Other => (i + 1, if acc.url == "" && !StartsWith(arg, "-") then acc.(url := arg) else acc)
  }

  /** The scan from index `i` on, starting from the options `acc`. */
  function ParseFrom(args: seq<string>, i: nat, acc: Options): Options
    decreases |args| - i
  {
    if i >= |args| then acc
    else
      var (j, next) := Step(args, i, acc);
      ParseFrom(args, j, next)
  }

  /** The scan at an index before the end is the scan after one turn. */
  lemma ParseFromUnfold(args: seq<string>, i: nat, acc: Options)
    requires i < |args|
    ensures ParseFrom(args, i, acc) == ParseFrom(args, Step(args, i, acc).0, Step(args, i, acc).1)
  {
  }

  /** What `parseArgs(args)` returns: the timeout is always positive, and
      the URL is empty or one of the arguments that does not start with
      `-`. */
  function Parse(args: seq<string>): (r: Options)
    ensures r.timeoutMs > 0
    ensures r.url == "" || (r.url in args && !StartsWith(r.url, "-"))
  {
    ParseFromTimeoutPositive(args, 0, Defaults);
    ParseFromUrl(args, 0, Defaults);
    ParseFrom(args, 0, Defaults)
  }

  /** The `--timeout-ms` case: parse the value, then fall back to the
      default when the number is `NaN` or not positive. */
  method ReadTimeout(value: string) returns (timeoutMs: int)
    ensures timeoutMs == TimeoutFrom(value)
  {
    var parsed := ParseIntPrefix(value);
    if parsed.None? || parsed.value <= 0 {
      timeoutMs := DefaultTimeoutMs;
    } else {
      timeoutMs := parsed.value;
    }
  }

  /** The body of the loop in `parseArgs`: the `switch` on `args[i]`,
      including the extra step over a flag's value. Returns the index the
      next turn starts from and the options after this turn. */
  method Turn(args: seq<string>, i: nat, acc: Options) returns (j: nat, opts: Options)
    requires i < |args|
    ensures (j, opts) == Step(args, i, acc)
  {
    var arg := args[i];
    opts, j := acc, i;
    match KindOf(arg) {
      case Skip =>
      case TimeoutFlag =>
        var value := if i + 1 < |args| then args[i + 1] else "";
        var timeoutMs := ReadTimeout(value);
        opts := opts.(timeoutMs := timeoutMs);
        j := j + 1;
      case OutfileFlag =>
        opts := opts.(outfile := if i + 1 < |args| then Some(args[i + 1]) else None);
        j := j + 1;
      case QuietFlag =>
        opts := opts.(quiet := true);
      case CheckUpdatesFlag =>
        opts := opts.(checkUpdates := true);
      case VersionFlag =>
        opts := opts.(versionOnly := true);
      case NoHtmlFlag =>
        opts := opts.(generateHtml := false);
      case Other =>
        if opts.url == "" && !StartsWith(arg, "-") {
          opts := opts.(url := arg);
        }
    }
    j := j + 1;
  }

  /** `parseArgs(args)`: the loop with its hand-advanced index. */
  method ParseArgs(args: seq<string>) returns (opts: Options)
    ensures opts == Parse(args)
  {
    opts := Defaults;
    var i := 0;
    while i < |args|
      invariant i <= |args| + 1
      invariant ParseFrom(args, i, opts) == Parse(args)
      decreases |args| - i
    {
      ParseFromUnfold(args, i, opts);
      i, opts := Turn(args, i, opts);
    }
  }

  /** The scan keeps the timeout positive. */
  lemma {:induction false} ParseFromTimeoutPositive(args: seq<string>, i: nat, acc: Options)
    requires acc.timeoutMs > 0
    ensures ParseFrom(args, i, acc).timeoutMs > 0
    decreases |args| - i
  {
    if i < |args| {
      var (j, next) := Step(args, i, acc);
      ParseFromTimeoutPositive(args, j, next);
    }
  }

  /** One turn keeps a URL once set, and sets it only to the argument at
      hand when that does not start with `-`. */
  lemma StepUrl(args: seq<string>, i: nat, acc: Options)
    requires i < |args|
    ensures var u := Step(args, i, acc).1.url;
      && (acc.url != "" ==> u == acc.url)
      && (acc.url == "" ==> u == "" || (u == args[i] && !StartsWith(u, "-")))
  {
  }

  /** Once set, the URL is never replaced; when it is set during the scan it
      is one of the arguments and does not start with `-`. */
  lemma {:induction false} ParseFromUrl(args: seq<string>, i: nat, acc: Options)
    ensures var u := ParseFrom(args, i, acc).url;
      && (acc.url != "" ==> u == acc.url)
      && (acc.url == "" ==> u == "" || (u in args && !StartsWith(u, "-")))
    decreases |args| - i
  {
    if i < |args| {
      var (j, next) := Step(args, i, acc);
      StepUrl(args, i, acc);
      ParseFromUrl(args, j, next);
    }
  }

  /** The scan from index `i` looks at index `k` as an argument of its own,
      not as the value of a flag. */
  ghost predicate Visited(args: seq<string>, i: nat, k: nat)
    decreases k - i
  {
    i == k || (i < k && i < |args| && Visited(args, i + Stride(args[i]), k))
  }

  /** An argument the `default` branch may take as the URL. */
  predicate Positional(arg: string)
  {
    KindOf(arg) == Other && !StartsWith(arg, "-")
  }

  /** From `i` on, with no URL yet, the first positional argument the scan
      visits becomes the URL. */
  lemma {:induction false} ParseFromFirstPositional(args: seq<string>, i: nat, k: nat, acc: Options)
    requires acc.url == ""
    requires k < |args| && Visited(args, i, k) && Positional(args[k])
    requires forall j :: i <= j < k && Visited(args, i, j) ==> !Positional(args[j])
    ensures ParseFrom(args, i, acc).url == args[k]
    decreases k - i
  {
    var (j, next) := Step(args, i, acc);
    if i == k {
      assert next.url == args[k];
      ParseFromUrl(args, j, next);
    } else {
      assert !Positional(args[i]) by {
        assert Visited(args, i, i);
      }
      assert next.url == "";
      forall m | j <= m < k && Visited(args, j, m)
        ensures Visited(args, i, m)
      {
      }
      ParseFromFirstPositional(args, j, k, next);
    }
  }

  /** From `i` on, with no URL yet, a scan that visits no positional
      argument leaves the URL empty. */
  lemma {:induction false} ParseFromNoPositional(args: seq<string>, i: nat, acc: Options)
    requires acc.url == ""
    requires forall j :: i <= j < |args| && Visited(args, i, j) ==> !Positional(args[j])
    ensures ParseFrom(args, i, acc).url == ""
    decreases |args| - i
  {
    if i < |args| {
      var (j, next) := Step(args, i, acc);
      assert !Positional(args[i]) by {
        assert Visited(args, i, i);
      }
      assert next.url == "";
      forall m | j <= m < |args| && Visited(args, j, m)
        ensures Visited(args, i, m)
      {
      }
      ParseFromNoPositional(args, j, next);
    }
  }

  /** The URL is the first positional argument that is not the value of
      `--timeout-ms` or `--outfile`. */
  lemma UrlIsFirstPositional(args: seq<string>, k: nat)
    requires k < |args| && Visited(args, 0, k) && Positional(args[k])
    requires forall j :: 0 <= j < k && Visited(args, 0, j) ==> !Positional(args[j])
    ensures Parse(args).url == args[k]
  {
    ParseFromFirstPositional(args, 0, k, Defaults);
  }

  /** With no such argument the URL stays empty. */
  lemma NoPositionalNoUrl(args: seq<string>)
    requires forall j :: 0 <= j < |args| && Visited(args, 0, j) ==> !Positional(args[j])
    ensures Parse(args).url == ""
  {
    ParseFromNoPositional(args, 0, Defaults);
  }

  /** No arguments give the defaults. */
  lemma NoArguments()
    ensures Parse([]) == Defaults
  {
  }

  /** A URL followed by `--timeout-ms` and a positive number gives that URL
      and that timeout, the rest left at the defaults. */
  lemma UrlAndTimeout(url: string, n: nat)
    requires url != "" && !StartsWith(url, "-")
    requires url != "--timeout-ms" && url != "--outfile" && url != "--quiet" && url != "--check-updates"
    requires url != "--version" && url != "-v" && url != "--no-html"
    requires n > 0
    ensures Parse([url, "--timeout-ms", Decimal(n)]) == Defaults.(url := url, timeoutMs := n)
  {
    var args := [url, "--timeout-ms", Decimal(n)];
    ParseIntOfDecimal(n);
    assert TimeoutFrom(Decimal(n)) == n;
    assert Step(args, 0, Defaults) == (1, Defaults.(url := url));
    assert NextOrEmpty(args, 1) == Decimal(n);
    assert Step(args, 1, Defaults.(url := url)) == (3, Defaults.(url := url, timeoutMs := n));
    assert Parse(args) == ParseFrom(args, 1, Defaults.(url := url));
    assert ParseFrom(args, 1, Defaults.(url := url)) == ParseFrom(args, 3, Defaults.(url := url, timeoutMs := n));
  }

  /** `--timeout-ms` with no number after it falls back to the default and
      still consumes the next argument. */
  lemma TimeoutWithoutNumber(value: string)
    requires DigitRun(Unsigned(value)) == 0
    ensures Parse(["--timeout-ms", value]) == Defaults
  {
    var args := ["--timeout-ms", value];
    assert NextOrEmpty(args, 0) == value;
    assert KindOf(args[0]) == TimeoutFlag;
    assert ParseIntPrefix(value) == None;
    assert TimeoutFrom(value) == DefaultTimeoutMs;
    assert Step(args, 0, Defaults) == (2, Defaults);
    assert Parse(args) == ParseFrom(args, 2, Defaults);
  }

  /** `--outfile` takes the next argument as its value even when that
      argument looks like a flag. */
  lemma OutfileTakesNext(value: string)
    ensures Parse(["--outfile", value]) == Defaults.(outfile := Some(value))
  {
    var args := ["--outfile", value];
    assert KindOf(args[0]) == OutfileFlag;
    assert Step(args, 0, Defaults) == (2, Defaults.(outfile := Some(value)));
    assert Parse(args) == ParseFrom(args, 2, Defaults.(outfile := Some(value)));
  }
}
