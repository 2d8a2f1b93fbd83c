/**
 * The player's control-socket protocol: a command is a name followed by its
 * arguments, sent as the one-line JSON object {"command": [name, args...]}
 * followed by a newline. Seconds are held exactly, in tenths of a second.
 */
module MpvIpc {
  import opened Optional

  /** An element of the JSON command array: a string, or a number of seconds. */
  datatype Arg = Str(s: string) | Seconds(tenths: int)

  datatype Command = Command(name: string, args: seq<Arg>)

  /** BACK_SEC and FWD_SEC, 0.5 seconds each, in tenths. */
  const BACK_TENTHS: int := 5
  const FWD_TENTHS: int := 5

  /** The three commands the pedal sends. */
  const SEEK_BACK: Command := Command("seek", [Seconds(-BACK_TENTHS), Str("relative")])
  const SEEK_FORWARD: Command := Command("seek", [Seconds(FWD_TENTHS), Str("relative")])
  const TOGGLE_PAUSE: Command := Command("cycle", [Str("pause")])

  predicate IsPedalCommand(c: Command) {
    c == SEEK_BACK || c == SEEK_FORWARD || c == TOGGLE_PAUSE
  }

  // ---------------------------------------------------------------------------
  // Characters

  predicate IsDigit(ch: char) {
    '0' <= ch <= '9'
  }

  function DigitChar(d: nat): (ch: char)
    requires d < 10
    ensures IsDigit(ch)
  {
    (d + '0' as int) as char
  }

  function DigitValue(ch: char): nat
    requires IsDigit(ch)
  {
    ch as int - '0' as int
  }

  predicate AllDigits(s: string) {
    forall i :: 0 <= i < |s| ==> IsDigit(s[i])
  }

  /** Printable ASCII: the characters json.dumps emits unchanged. */
  predicate Printable(s: string) {
    forall i :: 0 <= i < |s| ==> ' ' <= s[i] <= '~'
  }

  /** A string json.dumps encodes by adding quotes only: printable ASCII, no quote, no backslash. */
  predicate PlainString(s: string) {
    Printable(s) && forall i :: 0 <= i < |s| ==> s[i] != '"' && s[i] != '\\'
  }

  predicate PlainArg(a: Arg) {
    a.Str? ==> PlainString(a.s)
  }

  predicate PlainCommand(c: Command) {
    PlainString(c.name) && forall i :: 0 <= i < |c.args| ==> PlainArg(c.args[i])
  }

  // ---------------------------------------------------------------------------
  // Rendering (what json.dumps produces for the command object)

  /** The decimal digits of n, most significant first, without leading zeros. */
  function Decimal(n: nat): (ds: string)
    ensures |ds| > 0 && AllDigits(ds)
    ensures n == 0 ==> ds == "0"
    ensures n > 0 ==> ds[0] != '0'
  {
    if n < 10 then [DigitChar(n)] else Decimal(n / 10) + [DigitChar(n % 10)]
  }

  /** The number a string of decimal digits denotes. */
  function DecimalValue(ds: string): nat
    requires AllDigits(ds)
  {
    if ds == [] then 0 else DecimalValue(ds[..|ds| - 1]) * 10 + DigitValue(ds[|ds| - 1])
  }

  /** A non-negative number of tenths with one fractional digit: 5 is "0.5", 12 is "1.2". */
  function RenderUnsigned(m: nat): string {
    Decimal(m / 10) + "." + [DigitChar(m % 10)]
  }

  /** A number of tenths written as a JSON number: 5 is "0.5", -5 is "-0.5". */
  function RenderSeconds(t: int): (r: string)
    ensures |r| >= 3 && r[|r| - 2] == '.' && IsDigit(r[|r| - 1])
    ensures r[0] == '-' <==> t < 0
  {
    if t < 0 then "-" + RenderUnsigned(-t) else RenderUnsigned(t)
  }

  /** One array element: a quoted string, or a number that starts with a digit or a minus sign. */
  function RenderArg(a: Arg): (r: string)
    ensures |r| > 0
    ensures r[0] == '"' <==> a.Str?
  {
    match a
    case Str(s) => "\"" + s + "\""
    case Seconds(t) => RenderSeconds(t)
  }

  /** Array elements separated by ", ", json.dumps's default item separator. */
  function RenderItems(items: seq<Arg>): (r: string)
    requires |items| > 0
    ensures |r| >= 3 * |items| - 2
    ensures r[0] == '"' <==> items[0].Str?
  {
    if |items| == 1 then RenderArg(items[0])
    else RenderArg(items[0]) + ", " + RenderItems(items[1..])
  }

  const HEAD: string := "{\"command\": ["
  const TAIL: string := "]}\n"

  /** The bytes one connection writes for a command: the JSON object and one newline. */
  function Frame(c: Command): (line: string)
    ensures |line| > |HEAD| + |TAIL| && line[..|HEAD|] == HEAD && line[|HEAD|] == '"'
    ensures line[|line| - 1] == '\n'
  {
    HEAD + RenderItems([Str(c.name)] + c.args) + TAIL
  }

  // ---------------------------------------------------------------------------
  // Parsing: a reader of the frame format, used to show that a frame determines its command

  /** Length of the run of digits at the front of s. */
  function DigitRun(s: string): (n: nat)
    ensures n <= |s| && AllDigits(s[..n])
    ensures n < |s| ==> !IsDigit(s[n])
  {
    if s == [] || !IsDigit(s[0]) then 0
    else
      var n := 1 + DigitRun(s[1..]);
      assert s[..n] == [s[0]] + s[1..][..n - 1];
      n
  }

  /** Position of the first quote in s, or |s| if there is none. */
  function QuoteIndex(s: string): (j: nat)
    ensures j <= |s| && (j < |s| ==> s[j] == '"')
    ensures forall i :: 0 <= i < j ==> s[i] != '"'
  {
    if s == [] || s[0] == '"' then 0 else 1 + QuoteIndex(s[1..])
  }

  /** Reads digits, a point and one digit; returns the tenths and what follows. */
  function ParseUnsigned(s: string): (r: Option<(nat, string)>)
    ensures r.Some? ==> |r.value.1| < |s|
  {
    var k := DigitRun(s);
    if 0 < k && k + 1 < |s| && s[k] == '.' && IsDigit(s[k + 1]) then
      Some((DecimalValue(s[..k]) * 10 + DigitValue(s[k + 1]), s[k + 2..]))
    else None
  }

  /** Reads an optional minus sign and an unsigned number of tenths. */
  function ParseSeconds(s: string): (r: Option<(int, string)>)
    ensures r.Some? ==> |r.value.1| < |s|
  {
    if |s| > 0 && s[0] == '-' then
      match ParseUnsigned(s[1..])
      case Some((m, rest)) => Some((-(m as int), rest))
      case None => None
    else
      match ParseUnsigned(s)
      case Some((m, rest)) => Some((m as int, rest))
      case None => None
  }

  function ParseArg(s: string): (r: Option<(Arg, string)>)
    ensures r.Some? ==> |r.value.1| < |s|
  {
    if |s| > 0 && s[0] == '"' then
      var j := QuoteIndex(s[1..]);
      if j < |s| - 1 then Some((Str(s[1..j + 1]), s[j + 2..])) else None
    else
      match ParseSeconds(s)
      case Some((t, rest)) => Some((Seconds(t), rest))
      case None => None
  }

  function ParseItems(s: string): (r: Option<seq<Arg>>)
    ensures r.Some? ==> |r.value| > 0
    decreases |s|
  {
    match ParseArg(s)
    case None => None
    case Some((a, rest)) =>
      if rest == [] then Some([a])
      else if |rest| >= 2 && rest[..2] == ", " then
        match ParseItems(rest[2..])
        case None => None
        case Some(more) => Some([a] + more)
      else None
  }

  /** Recovers the command from one framed line, or None when the line is not a frame. */
  function ParseFrame(line: string): Option<Command> {
    if |line| >= |HEAD| + |TAIL| && line[..|HEAD|] == HEAD && line[|line| - |TAIL|..] == TAIL then
      match ParseItems(line[|HEAD|..|line| - |TAIL|])
      case Some(items) => if items[0].Str? then Some(Command(items[0].s, items[1..])) else None
      case None => None
    else None
  }

  // ---------------------------------------------------------------------------
  // Round trip: ParseFrame recovers exactly the command that was framed

  lemma {:induction false} DecimalRoundTrip(n: nat)
    ensures DecimalValue(Decimal(n)) == n
  {
    if n >= 10 {
      var ds := Decimal(n / 10) + [DigitChar(n % 10)];
      assert ds[..|ds| - 1] == Decimal(n / 10);
      DecimalRoundTrip(n / 10);
    }
  }

  lemma {:induction false} DigitRunOf(ds: string, rest: string)
    requires AllDigits(ds)
    requires rest == [] || !IsDigit(rest[0])
    ensures DigitRun(ds + rest) == |ds|
  {
    if ds != [] {
      assert (ds + rest)[1..] == ds[1..] + rest;
      DigitRunOf(ds[1..], rest);
    }
  }

  lemma UnsignedRoundTrip(m: nat, rest: string)
    ensures ParseUnsigned(RenderUnsigned(m) + rest) == Some((m, rest))
  {
    var ds := Decimal(m / 10);
    var tail := "." + [DigitChar(m % 10)] + rest;
    var s := RenderUnsigned(m) + rest;
    assert s == ds + tail;
    DigitRunOf(ds, tail);
    assert s[..|ds|] == ds;
    DecimalRoundTrip(m / 10);
    assert s[|ds|] == '.' && s[|ds| + 1] == DigitChar(m % 10);
    assert DigitValue(DigitChar(m % 10)) == m % 10;
    assert s[|ds| + 2..] == rest;
  }

  lemma SecondsRoundTrip(t: int, rest: string)
    ensures ParseSeconds(RenderSeconds(t) + rest) == Some((t, rest))
  {
    var s := RenderSeconds(t) + rest;
    if t < 0 {
      var u := RenderUnsigned(-t) + rest;
      assert s == ['-'] + u;
      assert s[1..] == u;
      UnsignedRoundTrip(-t, rest);
    } else {
      assert s[0] == Decimal(t / 10)[0];
      UnsignedRoundTrip(t, rest);
    }
  }

  lemma StringRoundTrip(x: string, rest: string)
    requires PlainString(x)
    ensures ParseArg(RenderArg(Str(x)) + rest) == Some((Str(x), rest))
  {
    var s := RenderArg(Str(x)) + rest;
    assert s == "\"" + x + "\"" + rest;
    var t := s[1..];
    assert t == x + ("\"" + rest);
    assert QuoteIndex(t) == |x| by {
      assert forall i :: 0 <= i < |x| ==> t[i] == x[i] && x[i] != '"';
      assert t[|x|] == '"';
    }
    assert s[1..|x| + 1] == x;
    assert s[|x| + 2..] == rest;
  }

  lemma ArgRoundTrip(a: Arg, rest: string)
    requires PlainArg(a)
    ensures ParseArg(RenderArg(a) + rest) == Some((a, rest))
  {
    match a
    case Str(x) =>
      StringRoundTrip(x, rest);
    case Seconds(t) =>
      var s := RenderArg(a) + rest;
      assert s[0] == '-' || s[0] == Decimal(t / 10)[0];
      SecondsRoundTrip(t, rest);
  }

  lemma {:induction false} ItemsRoundTrip(items: seq<Arg>)
    requires |items| > 0
    requires forall i :: 0 <= i < |items| ==> PlainArg(items[i])
    ensures ParseItems(RenderItems(items)) == Some(items)
  {
    if |items| == 1 {
      ArgRoundTrip(items[0], "");
      assert RenderArg(items[0]) + "" == RenderItems(items);
      assert ParseArg(RenderItems(items)) == Some((items[0], ""));
      assert [items[0]] == items;
    } else {
      var more := RenderItems(items[1..]);
      var rest := ", " + more;
      assert RenderItems(items) == RenderArg(items[0]) + rest;
      ArgRoundTrip(items[0], rest);
      assert rest[..2] == ", " && rest[2..] == more;
      assert ParseArg(RenderItems(items)) == Some((items[0], rest));
      ItemsRoundTrip(items[1..]);
      assert ParseItems(rest[2..]) == Some(items[1..]);
      assert [items[0]] + items[1..] == items;
    }
  }

  /** ParseFrame recovers, from every frame the daemon writes, the command it came from. */
  lemma FrameRoundTrip(c: Command)
    requires PlainCommand(c)
    ensures ParseFrame(Frame(c)) == Some(c)
  {
    var items := [Str(c.name)] + c.args;
    var body := RenderItems(items);
    var line := Frame(c);
    assert line == HEAD + body + TAIL;
    assert line[..|HEAD|] == HEAD;
    assert line[|line| - |TAIL|..] == TAIL;
    assert line[|HEAD|..|line| - |TAIL|] == body;
    assert forall i :: 0 <= i < |items| ==> PlainArg(items[i]) by {
      forall i | 0 <= i < |items| ensures PlainArg(items[i]) {
        if i > 0 { assert items[i] == c.args[i - 1]; }
      }
    }
    ItemsRoundTrip(items);
    assert items[1..] == c.args;
  }

  /** Distinct commands are written as distinct lines. */
  lemma FrameInjective(c1: Command, c2: Command)
    requires PlainCommand(c1) && PlainCommand(c2)
    requires Frame(c1) == Frame(c2)
    ensures c1 == c2
  {
    FrameRoundTrip(c1);
    FrameRoundTrip(c2);
  }

  // ---------------------------------------------------------------------------
  // Each frame is exactly one line

  lemma PrintableAppend(a: string, b: string)
    requires Printable(a) && Printable(b)
    ensures Printable(a + b)
  {
    forall i | 0 <= i < |a + b| ensures ' ' <= (a + b)[i] <= '~' {
      if i >= |a| { assert (a + b)[i] == b[i - |a|]; }
    }
  }

  lemma ArgPrintable(a: Arg)
    requires PlainArg(a)
    ensures Printable(RenderArg(a))
  {
    match a
    case Str(x) =>
      PrintableAppend("\"", x);
      PrintableAppend("\"" + x, "\"");
    case Seconds(t) =>
      var m := if t < 0 then -t else t;
      var ds := Decimal(m / 10);
      assert Printable(ds) by {
        assert forall i :: 0 <= i < |ds| ==> IsDigit(ds[i]);
      }
      PrintableAppend(ds, ".");
      PrintableAppend(ds + ".", [DigitChar(m % 10)]);
      if t < 0 {
        PrintableAppend("-", RenderUnsigned(m));
      }
  }

  lemma {:induction false} ItemsPrintable(items: seq<Arg>)
    requires |items| > 0
    requires forall i :: 0 <= i < |items| ==> PlainArg(items[i])
    ensures Printable(RenderItems(items))
  {
    ArgPrintable(items[0]);
    if |items| > 1 {
      ItemsPrintable(items[1..]);
      PrintableAppend(RenderArg(items[0]), ", ");
      PrintableAppend(RenderArg(items[0]) + ", ", RenderItems(items[1..]));
    }
  }

  /** A frame ends in a newline and holds no other: the player reads it as one line. */
  lemma FrameIsOneLine(c: Command)
    requires PlainCommand(c)
    ensures |Frame(c)| > 0 && Frame(c)[|Frame(c)| - 1] == '\n'
    ensures forall i :: 0 <= i < |Frame(c)| - 1 ==> Frame(c)[i] != '\n'
  {
    var items := [Str(c.name)] + c.args;
    forall i | 0 <= i < |items| ensures PlainArg(items[i]) {
      if i > 0 { assert items[i] == c.args[i - 1]; }
    }
    ItemsPrintable(items);
    var body := RenderItems(items);
    var line := Frame(c);
    assert line == HEAD + body + "]}" + "\n";
    forall i | 0 <= i < |line| - 1 ensures line[i] != '\n' {
      if i >= |HEAD| && i < |HEAD| + |body| {
        assert line[i] == body[i - |HEAD|];
      }
    }
  }

  /** The three pedal commands satisfy the plain-string condition of the lemmas above. */
  lemma PedalCommandIsPlain(c: Command)
    requires IsPedalCommand(c)
    ensures PlainCommand(c)
  {
    assert PlainString("seek") && PlainString("cycle");
    assert PlainString("relative") && PlainString("pause");
  }

  lemma ItemsCons(a: Arg, rest: seq<Arg>)
    requires |rest| > 0
    ensures RenderItems([a] + rest) == RenderArg(a) + ", " + RenderItems(rest)
  {
    assert ([a] + rest)[0] == a;
    assert ([a] + rest)[1..] == rest;
  }

  /** The frame of a command with two arguments. */
  lemma TwoArgFrame(name: string, a: Arg, b: Arg)
    ensures Frame(Command(name, [a, b]))
         == HEAD + (RenderArg(Str(name)) + ", " + (RenderArg(a) + ", " + RenderArg(b))) + TAIL
  {
    ItemsCons(a, [b]);
    assert [a] + [b] == [a, b];
    ItemsCons(Str(name), [a, b]);
  }

  lemma HalfSecond()
    ensures RenderArg(Seconds(5)) == "0.5"
    ensures RenderArg(Seconds(-5)) == "-0.5"
  {
    assert DigitChar(0) == '0' && DigitChar(5) == '5';
    assert Decimal(0) == "0";
    assert RenderUnsigned(5) == "0" + "." + "5";
    assert RenderSeconds(-5) == "-" + RenderUnsigned(5);
  }

  lemma QuotedWords()
    ensures RenderArg(Str("seek")) == "\"seek\""
    ensures RenderArg(Str("relative")) == "\"relative\""
  {
  }

  // The two lemmas below take the rendered words as parameters fixed by their
  // requires, so that the literal concatenation is checked apart from rendering.
  lemma SeekBackLine(x1: string, x2: string, x3: string)
    requires x1 == "\"seek\"" && x2 == "-0.5" && x3 == "\"relative\""
    ensures HEAD + (x1 + ", " + (x2 + ", " + x3)) + TAIL == "{\"command\": [\"seek\", -0.5, \"relative\"]}\n"
  {
  }

  lemma SeekForwardLine(x1: string, x2: string, x3: string)
    requires x1 == "\"seek\"" && x2 == "0.5" && x3 == "\"relative\""
    ensures HEAD + (x1 + ", " + (x2 + ", " + x3)) + TAIL == "{\"command\": [\"seek\", 0.5, \"relative\"]}\n"
  {
  }

  /** The literal lines the pedal writes: the player's documented seek and pause-toggle commands. */
  lemma SeekBackFrame()
    ensures Frame(SEEK_BACK) == "{\"command\": [\"seek\", -0.5, \"relative\"]}\n"
  {
    assert SEEK_BACK == Command("seek", [Seconds(-5), Str("relative")]);
    TwoArgFrame("seek", Seconds(-5), Str("relative"));
    QuotedWords();
    HalfSecond();
    SeekBackLine(RenderArg(Str("seek")), RenderArg(Seconds(-5)), RenderArg(Str("relative")));
  }

  lemma SeekForwardFrame()
    ensures Frame(SEEK_FORWARD) == "{\"command\": [\"seek\", 0.5, \"relative\"]}\n"
  {
    assert SEEK_FORWARD == Command("seek", [Seconds(5), Str("relative")]);
    TwoArgFrame("seek", Seconds(5), Str("relative"));
    QuotedWords();
    HalfSecond();
    SeekForwardLine(RenderArg(Str("seek")), RenderArg(Seconds(5)), RenderArg(Str("relative")));
  }

  lemma TogglePauseFrame()
    ensures Frame(TOGGLE_PAUSE) == "{\"command\": [\"cycle\", \"pause\"]}\n"
  {
    assert [Str("cycle")] + TOGGLE_PAUSE.args == [Str("cycle"), Str("pause")];
    assert [Str("cycle"), Str("pause")][1..] == [Str("pause")];
  }
}
