/**
 Command lines: `Split` cuts a line into arguments at white space, honouring quotes;
 `Join` quotes an argument the way JSON does when it is empty or holds white space or
 quotes.  Characters are Unicode scalar values, so lone surrogates do not occur.
 */
module Args {
  import opened Texts

  // ---------- characters ----------

  /** White space as \s and trim() know it. */
  predicate IsSpace(c: char) {
    || '\t' <= c <= '\r' || c == ' ' || c == '\U{A0}' || c == '\U{1680}'
    || '\U{2000}' <= c <= '\U{200A}' || c == '\U{2028}' || c == '\U{2029}' || c == '\U{202F}'
    || c == '\U{205F}' || c == '\U{3000}' || c == '\U{FEFF}'
  }

  predicate IsQuote(c: char) { c == '"' || c == '\'' }

  const BACKSLASH := '\\'

  /** The characters JSON.stringify escapes. */
  predicate IsEscaped(c: char) { c == '"' || c == BACKSLASH || c < ' ' }

  function Hex(d: nat): char
    requires d < 16
  {
    "0123456789abcdef"[d]
  }

  /** What JSON.stringify writes for one character. */
  function JsonChar(c: char): (s: string)
    ensures IsEscaped(c) ==> |s| >= 2 && s[0] == BACKSLASH
    ensures !IsEscaped(c) ==> s == [c]
  {
    if c == '"' then "\\\""
    else if c == BACKSLASH then "\\\\"
    else if c == '\U{8}' then "\\b"
    else if c == '\t' then "\\t"
    else if c == '\n' then "\\n"
    else if c == '\U{C}' then "\\f"
    else if c == '\r' then "\\r"
    else if c < ' ' then "\\u00" + [Hex(c as int / 16), Hex(c as int % 16)]
    else [c]
  }

  function JsonBody(a: string): string {
    if a == "" then "" else JsonChar(a[0]) + JsonBody(a[1..])
  }

  function Json(a: string): string { "\"" + JsonBody(a) + "\"" }

  // ---------- join ----------

  predicate NeedsQuotes(a: string) {
    a == "" || exists i :: 0 <= i < |a| && (IsSpace(a[i]) || IsQuote(a[i]))
  }

  function Shown(a: string): string {
    if NeedsQuotes(a) then Json(a) else a
  }

  function Join(args: seq<string>): string {
    if args == [] then ""
    else if |args| == 1 then Shown(args[0])
    else Shown(args[0]) + " " + Join(args[1..])
  }

  // ---------- split ----------

  /** The loop's variables; `quote` is empty outside quotes. */
  datatype Scan = Scan(cur: string, quote: string, has: bool, out: seq<string>)

  const START := Scan("", "", false, [])

  function Step(s: Scan, ch: char): Scan {
    if s.quote != "" then
      if [ch] == s.quote then s.(quote := "") else s.(cur := s.cur + [ch])
    else if IsQuote(ch) then s.(quote := [ch], has := true)
    else if IsSpace(ch) then Scan("", "", false, if s.has || s.cur != "" then s.out + [s.cur] else s.out)
    else s.(cur := s.cur + [ch], has := true)
  }

  function Scanned(s: Scan, line: string): Scan
    decreases |line|
  {
    if line == "" then s else Scanned(Step(s, line[0]), line[1..])
  }

  function Closed(s: Scan): seq<string> {
    if s.has || s.cur != "" then s.out + [s.cur] else s.out
  }

  function SplitOf(line: string): seq<string> {
    Closed(Scanned(START, Trim(line, IsSpace)))
  }

  method Split(line: string) returns (out: seq<string>)
    ensures out == SplitOf(line)
  {
    out := [];
    var cur, quote, has := "", "", false;
    var text := Trim(line, IsSpace);
    for i := 0 to |text|
      invariant Scanned(START, text) == Scanned(Scan(cur, quote, has, out), text[i..])
    {
      var ch := text[i];
      assert text[i..][0] == ch && text[i..][1..] == text[i + 1..];
      if quote != "" {
        if [ch] == quote {
          quote := "";
        } else {
          cur := cur + [ch];
        }
      } else if ch == '"' || ch == '\'' {
        quote, has := [ch], true;
      } else if IsSpace(ch) {
        if has || cur != "" {
          out := out + [cur];
        }
        cur, has := "", false;
      } else {
        cur, has := cur + [ch], true;
      }
    }
    assert text[|text|..] == "";
    if has || cur != "" {
      out := out + [cur];
    }
  }

  // ---------- the round trip ----------

  /** No character of the argument has to be escaped, or it is shown without quotes. */
  predicate Plain(a: string) {
    NeedsQuotes(a) ==> forall i :: 0 <= i < |a| ==> !IsEscaped(a[i])
  }

  lemma {:induction false} ScannedAppend(s: Scan, x: string, y: string)
    ensures Scanned(s, x + y) == Scanned(Scanned(s, x), y)
    decreases |x|
  {
    if x == "" {
      assert x + y == y;
    } else {
      assert (x + y)[0] == x[0] && (x + y)[1..] == x[1..] + y;
      ScannedAppend(Step(s, x[0]), x[1..], y);
    }
  }

  lemma {:induction false} PlainBody(a: string)
    requires forall i :: 0 <= i < |a| ==> !IsEscaped(a[i])
    ensures JsonBody(a) == a
    decreases |a|
  {
    if a != "" {
      PlainBody(a[1..]);
    }
  }

  /** Inside double quotes everything but a double quote is kept. */
  lemma {:induction false} ScanInside(s: Scan, a: string)
    requires s.quote == "\"" && forall i :: 0 <= i < |a| ==> a[i] != '"'
    ensures Scanned(s, a) == s.(cur := s.cur + a)
    decreases |a|
  {
    if a == "" {
      assert s.cur + a == s.cur;
    } else {
      assert [a[0]] != "\"" by { assert [a[0]][0] != "\""[0]; }
      ScanInside(s.(cur := s.cur + [a[0]]), a[1..]);
      assert s.cur + [a[0]] + a[1..] == s.cur + a;
    }
  }

  /** Outside quotes an ordinary character is kept. */
  lemma {:induction false} ScanBare(s: Scan, a: string)
    requires s.quote == "" && forall i :: 0 <= i < |a| ==> !IsSpace(a[i]) && !IsQuote(a[i])
    ensures Scanned(s, a) == s.(cur := s.cur + a, has := s.has || a != "")
    decreases |a|
  {
    if a == "" {
      assert s.cur + a == s.cur;
    } else {
      ScanBare(s.(cur := s.cur + [a[0]], has := true), a[1..]);
      assert s.cur + [a[0]] + a[1..] == s.cur + a;
    }
  }

  /** A shown plain argument is read back whole, at the start of an argument. */
  lemma ScanShown(a: string, out: seq<string>)
    requires Plain(a)
    ensures Scanned(Scan("", "", false, out), Shown(a)) == Scan(a, "", true, out)
  {
    if NeedsQuotes(a) {
      PlainBody(a);
      assert Json(a) == ['"'] + (a + ['"']);
      var s := Scan("", "\"", true, out);
      assert Step(Scan("", "", false, out), '"') == s;
      assert Scanned(Scan("", "", false, out), Json(a)) == Scanned(s, a + ['"']) by {
        assert Json(a)[1..] == a + ['"'];
      }
      ScannedAppend(s, a, ['"']);
      ScanInside(s, a);
      assert "" + a == a;
      var t := Scan(a, "\"", true, out);
      assert Scanned(t, ['"']) == Scanned(Step(t, '"'), ['"'][1..]) == Step(t, '"');
    } else {
      ScanBare(Scan("", "", false, out), a);
      assert "" + a == a;
    }
  }

  /** A shown plain argument and the space after it put the argument in the list. */
  lemma ScanShownThenSpace(a: string, out: seq<string>, rest: string)
    requires Plain(a)
    ensures Scanned(Scan("", "", false, out), Shown(a) + " " + rest) == Scanned(Scan("", "", false, out + [a]), rest)
  {
    var start, read := Scan("", "", false, out), Scan(a, "", true, out);
    var tail := " " + rest;
    ScanShown(a, out);
    ScannedAppend(start, Shown(a), tail);
    assert Shown(a) + " " + rest == Shown(a) + tail;
    assert tail[0] == ' ' && tail[1..] == rest;
    assert Scanned(read, tail) == Scanned(Step(read, ' '), rest);
  }

  lemma {:induction false} ScanJoined(args: seq<string>, out: seq<string>)
    requires args != [] && forall i :: 0 <= i < |args| ==> Plain(args[i])
    ensures Scanned(Scan("", "", false, out), Join(args)) == Scan(args[|args| - 1], "", true, out + args[..|args| - 1])
    decreases |args|
  {
    if |args| == 1 {
      ScanShown(args[0], out);
      assert out + args[..0] == out;
    } else {
      ScanShownThenSpace(args[0], out, Join(args[1..]));
      ScanJoined(args[1..], out + [args[0]]);
      assert out + [args[0]] + args[1..][..|args| - 2] == out + args[..|args| - 1];
    }
  }

  /** A shown argument neither begins nor ends with white space, so a joined line is not trimmed. */
  lemma ShownEnds(a: string)
    ensures Shown(a) != "" && !IsSpace(Shown(a)[0]) && !IsSpace(Shown(a)[|Shown(a)| - 1])
  {
  }

  lemma {:induction false} JoinEnds(args: seq<string>)
    requires args != []
    ensures Join(args) != "" && !IsSpace(Join(args)[0]) && !IsSpace(Join(args)[|Join(args)| - 1])
    decreases |args|
  {
    ShownEnds(args[0]);
    if |args| > 1 {
      JoinEnds(args[1..]);
    }
  }

  lemma JoinIsTrimmed(args: seq<string>)
    ensures Trim(Join(args), IsSpace) == Join(args)
  {
    if args != [] {
      JoinEnds(args);
    }
    TrimNothing(Join(args), IsSpace);
  }

  // ---------- why the condition is needed ----------

  function Backslashes(s: string): nat {
    if s == "" then 0 else (if s[0] == BACKSLASH then 1 else 0) + Backslashes(s[1..])
  }

  function BackslashesIn(args: seq<string>): nat {
    if args == [] then 0 else BackslashesIn(args[..|args| - 1]) + Backslashes(args[|args| - 1])
  }

  lemma {:induction false} BackslashesAppend(x: string, y: string)
    ensures Backslashes(x + y) == Backslashes(x) + Backslashes(y)
    decreases |x|
  {
    if x == "" {
      assert x + y == y;
    } else {
      assert (x + y)[1..] == x[1..] + y;
      BackslashesAppend(x[1..], y);
    }
  }

  lemma BackslashesInAppend(args: seq<string>, a: string)
    ensures BackslashesIn(args + [a]) == BackslashesIn(args) + Backslashes(a)
  {
  }

  lemma StepKeepsBackslashes(s: Scan, ch: char)
    requires s.quote == "" || s.quote == "\"" || s.quote == "'"
    ensures var t := Step(s, ch);
            BackslashesIn(t.out) + Backslashes(t.cur)
            == BackslashesIn(s.out) + Backslashes(s.cur) + if ch == BACKSLASH then 1 else 0
  {
    BackslashesAppend(s.cur, [ch]);
    BackslashesInAppend(s.out, s.cur);
    assert Backslashes([ch]) == (if ch == BACKSLASH then 1 else 0) by { assert [ch][1..] == ""; }
    if ch == BACKSLASH {
      assert [ch][0] != "\""[0] && [ch][0] != "'"[0];
    }
  }

  /** Splitting neither drops nor adds a backslash. */
  lemma {:induction false} ScanKeepsBackslashes(s: Scan, line: string)
    requires s.quote == "" || s.quote == "\"" || s.quote == "'"
    ensures var t := Scanned(s, line);
            BackslashesIn(t.out) + Backslashes(t.cur) == BackslashesIn(s.out) + Backslashes(s.cur) + Backslashes(line)
    decreases |line|
  {
    if line != "" {
      StepKeepsBackslashes(s, line[0]);
      ScanKeepsBackslashes(Step(s, line[0]), line[1..]);
    }
  }

  lemma SplitKeepsBackslashes(line: string)
    requires Trim(line, IsSpace) == line
    ensures BackslashesIn(SplitOf(line)) == Backslashes(line)
  {
    ScanKeepsBackslashes(START, line);
    var s := Scanned(START, line);
    BackslashesInAppend(s.out, s.cur);
  }

  /** Escaping never removes a backslash, and adds one wherever it changes anything. */
  lemma {:induction false} JsonAddsBackslashes(a: string)
    ensures Backslashes(JsonBody(a)) >= Backslashes(a)
    ensures (exists i :: 0 <= i < |a| && IsEscaped(a[i])) ==> Backslashes(JsonBody(a)) > Backslashes(a)
    decreases |a|
  {
    if a != "" {
      JsonAddsBackslashes(a[1..]);
      BackslashesAppend(JsonChar(a[0]), JsonBody(a[1..]));
      JsonCharBackslashes(a[0]);
      if i :| 0 <= i < |a| && IsEscaped(a[i]) {
        if i > 0 {
          assert a[1..][i - 1] == a[i];
        }
      }
    }
  }

  lemma JsonCharBackslashes(c: char)
    ensures Backslashes(JsonChar(c)) >= if IsEscaped(c) then (if c == BACKSLASH then 2 else 1) else 0
  {
  }

  lemma ShownAddsBackslashes(a: string)
    ensures Backslashes(Shown(a)) >= Backslashes(a)
    ensures !Plain(a) ==> Backslashes(Shown(a)) > Backslashes(a)
  {
    if NeedsQuotes(a) {
      JsonAddsBackslashes(a);
      BackslashesAppend("\"" + JsonBody(a), "\"");
      BackslashesAppend("\"", JsonBody(a));
    }
  }

  lemma {:induction false} FromTheFront(args: seq<string>)
    requires args != []
    ensures BackslashesIn(args) == Backslashes(args[0]) + BackslashesIn(args[1..])
    decreases |args|
  {
    var start, last := args[..|args| - 1], args[|args| - 1];
    if start == [] {
      assert args[1..] == [];
    } else {
      FromTheFront(start);
      assert args[1..] == start[1..] + [last];
      BackslashesInAppend(start[1..], last);
    }
  }

  lemma {:induction false} JoinAddsBackslashes(args: seq<string>)
    ensures Backslashes(Join(args)) >= BackslashesIn(args)
    ensures (exists i :: 0 <= i < |args| && !Plain(args[i])) ==> Backslashes(Join(args)) > BackslashesIn(args)
    decreases |args|
  {
    if args != [] {
      ShownAddsBackslashes(args[0]);
      FromTheFront(args);
      JoinAddsBackslashes(args[1..]);
      if |args| > 1 {
        BackslashesAppend(Shown(args[0]) + " ", Join(args[1..]));
        BackslashesAppend(Shown(args[0]), " ");
      }
      if i :| 0 <= i < |args| && !Plain(args[i]) {
        if i > 0 {
          assert args[1..][i - 1] == args[i];
        }
      }
    }
  }

  /**
   Splitting a joined list gives the list back exactly when no argument that has to be quoted
   contains a character that JSON escapes; the empty list and empty arguments included.
   */
  lemma RoundTripIff(args: seq<string>)
    ensures SplitOf(Join(args)) == args <==> forall i :: 0 <= i < |args| ==> Plain(args[i])
  {
    if forall i :: 0 <= i < |args| ==> Plain(args[i]) {
      PlainRoundTrips(args);
    } else {
      JoinIsTrimmed(args);
      JoinAddsBackslashes(args);
      SplitKeepsBackslashes(Join(args));
    }
  }

  lemma PlainRoundTrips(args: seq<string>)
    requires forall i :: 0 <= i < |args| ==> Plain(args[i])
    ensures SplitOf(Join(args)) == args
  {
    JoinIsTrimmed(args);
    if args != [] {
      ScanJoined(args, []);
      AllArguments(args);
    }
  }

  /** What the loop holds after the last of the arguments. */
  lemma AllArguments(args: seq<string>)
    requires args != []
    ensures Closed(Scan(args[|args| - 1], "", true, [] + args[..|args| - 1])) == args
  {
  }

  /**
   The same in so many words: of every argument that is empty or has white space or a quote in
   it, no character is a double quote, a backslash or a control character.
   */
  lemma RoundTripInWords(args: seq<string>)
    ensures SplitOf(Join(args)) == args <==>
            forall i :: 0 <= i < |args| && HasSpaceOrQuote(args[i]) ==>
              forall j :: 0 <= j < |args[i]| ==> args[i][j] != '"' && args[i][j] != '\\' && args[i][j] >= ' '
  {
    RoundTripIff(args);
    forall i | 0 <= i < |args|
      ensures Plain(args[i]) <==> (HasSpaceOrQuote(args[i]) ==>
                forall j :: 0 <= j < |args[i]| ==> args[i][j] != '"' && args[i][j] != '\\' && args[i][j] >= ' ')
    {
      PlainIs(args[i]);
    }
  }

  predicate HasSpaceOrQuote(a: string) {
    exists i :: 0 <= i < |a| && (IsSpace(a[i]) || a[i] == '"' || a[i] == '\'')
  }

  lemma PlainIs(a: string)
    ensures Plain(a) <==> (HasSpaceOrQuote(a) ==> forall j :: 0 <= j < |a| ==> a[j] != '"' && a[j] != '\\' && a[j] >= ' ')
  {
    assert NeedsQuotes(a) <==> a == "" || HasSpaceOrQuote(a);
  }

  /** An argument is shown as it is unless it is empty or has white space or a quote in it. */
  lemma ShownAsItIsIff(a: string)
    ensures Join([a]) == a <==> a != "" && !HasSpaceOrQuote(a)
  {
    assert NeedsQuotes(a) <==> a == "" || HasSpaceOrQuote(a);
    JsonIsLonger(a);
    assert |Json(a)| == |JsonBody(a)| + 2;
  }

  lemma {:induction false} JsonIsLonger(a: string)
    ensures |JsonBody(a)| >= |a|
    decreases |a|
  {
    if a != "" {
      JsonIsLonger(a[1..]);
    }
  }

  // ---------- what JSON makes of an argument ----------

  function HexValue(c: char): nat {
    if '0' <= c <= '9' then c as int - '0' as int
    else if 'a' <= c <= 'f' then c as int - 'a' as int + 10
    else 0
  }

  /** What an escape letter stands for. */
  function Unescaped(c: char): char {
    if c == 'b' then '\U{8}'
    else if c == 't' then '\t'
    else if c == 'n' then '\n'
    else if c == 'f' then '\U{C}'
    else if c == 'r' then '\r'
    else c
  }

  /** The text that a JSON string's body stands for; of \u escapes, those below U+0100. */
  function ReadJson(s: string): string
    decreases |s|
  {
    if s == "" then ""
    else if s[0] != BACKSLASH then [s[0]] + ReadJson(s[1..])
    else if |s| >= 6 && s[1] == 'u' then
      [(HexValue(s[4]) * 16 + HexValue(s[5])) as char] + ReadJson(s[6..])
    else if |s| >= 2 then [Unescaped(s[1])] + ReadJson(s[2..])
    else ""
  }

  lemma ReadOne(c: char, rest: string)
    ensures ReadJson(JsonChar(c) + rest) == [c] + ReadJson(rest)
  {
    var s := JsonChar(c) + rest;
    if IsEscaped(c) && |JsonChar(c)| == 6 {
      HexReadsBack(c as int / 16);
      HexReadsBack(c as int % 16);
      assert s[6..] == rest;
    } else if IsEscaped(c) {
      assert s[2..] == rest;
    } else {
      assert s[1..] == rest;
    }
  }

  lemma HexReadsBack(d: nat)
    requires d < 16
    ensures HexValue(Hex(d)) == d
  {
  }

  /** Read as JSON, what an argument is quoted to is the argument. */
  lemma {:induction false} JsonReadsBack(a: string)
    ensures ReadJson(JsonBody(a)) == a
    decreases |a|
  {
    if a != "" {
      JsonReadsBack(a[1..]);
      ReadOne(a[0], JsonBody(a[1..]));
    }
  }

  // ---------- lines people type ----------

  /** Inside a quote everything but that quote is kept. */
  lemma {:induction false} ScanWithin(s: Scan, q: char, a: string)
    requires s.quote == [q] && forall i :: 0 <= i < |a| ==> a[i] != q
    ensures Scanned(s, a) == s.(cur := s.cur + a)
    decreases |a|
  {
    if a == "" {
      assert s.cur + a == s.cur;
    } else {
      assert [a[0]] != s.quote by { assert [a[0]][0] != [q][0]; }
      ScanWithin(s.(cur := s.cur + [a[0]]), q, a[1..]);
      assert s.cur + [a[0]] + a[1..] == s.cur + a;
    }
  }

  /** A quoted text, with either quote, is one part of an argument, white space and the other quote included. */
  lemma ScanQuoted(s: Scan, q: char, a: string)
    requires IsQuote(q) && s.quote == "" && forall i :: 0 <= i < |a| ==> a[i] != q
    ensures Scanned(s, [q] + a + [q]) == s.(cur := s.cur + a, has := true)
  {
    var outset := s.(quote := [q], has := true);
    var inside := outset.(cur := s.cur + a);
    assert [q] + a + [q] == [q] + (a + [q]);
    assert ([q] + (a + [q]))[1..] == a + [q];
    assert Step(s, q) == outset;
    ScannedAppend(outset, a, [q]);
    ScanWithin(outset, q, a);
    assert [q][1..] == "";
    assert Scanned(inside, [q]) == Step(inside, q);
  }

  /** White space, however much, ends an argument once. */
  lemma {:induction false} ScanSpaces(s: Scan, spaces: string)
    requires s.quote == "" && spaces != "" && forall i :: 0 <= i < |spaces| ==> IsSpace(spaces[i])
    ensures Scanned(s, spaces) == Scan("", "", false, if s.has || s.cur != "" then s.out + [s.cur] else s.out)
    decreases |spaces|
  {
    assert !IsQuote(spaces[0]);
    var t := Step(s, spaces[0]);
    if spaces[1..] != "" {
      ScanSpaces(t, spaces[1..]);
    }
  }

  /** A piece of a typed argument. */
  datatype Piece = Bare(text: string) | Quoted(q: char, text: string)

  predicate GoodPiece(p: Piece) {
    match p
    case Bare(text) => text != "" && forall i :: 0 <= i < |text| ==> !IsSpace(text[i]) && !IsQuote(text[i])
    case Quoted(q, text) => IsQuote(q) && forall i :: 0 <= i < |text| ==> text[i] != q
  }

  function Typed(p: Piece): string {
    if p.Bare? then p.text else [p.q] + p.text + [p.q]
  }

  function TypedAll(ps: seq<Piece>): string {
    if ps == [] then "" else TypedAll(ps[..|ps| - 1]) + Typed(ps[|ps| - 1])
  }

  function Meant(ps: seq<Piece>): string {
    if ps == [] then "" else Meant(ps[..|ps| - 1]) + ps[|ps| - 1].text
  }

  /** The pieces of an argument, bare or in either quote, are put together. */
  lemma {:induction false} ScanPieces(ps: seq<Piece>, out: seq<string>)
    requires forall i :: 0 <= i < |ps| ==> GoodPiece(ps[i])
    ensures Scanned(Scan("", "", false, out), TypedAll(ps)) == Scan(Meant(ps), "", ps != [], out)
    decreases |ps|
  {
    if ps != [] {
      var before, p := ps[..|ps| - 1], ps[|ps| - 1];
      ScanPieces(before, out);
      ScannedAppend(Scan("", "", false, out), TypedAll(before), Typed(p));
      assert GoodPiece(p);
      if p.Bare? {
        ScanBare(Scan(Meant(before), "", before != [], out), p.text);
      } else {
        ScanQuoted(Scan(Meant(before), "", before != [], out), p.q, p.text);
      }
    }
  }

  /** An argument as it is typed, with the white space after it. */
  datatype Word = Word(pieces: seq<Piece>, spaces: string)

  predicate GoodWord(w: Word) {
    w.pieces != [] && (forall i :: 0 <= i < |w.pieces| ==> GoodPiece(w.pieces[i]))
    && w.spaces != "" && forall i :: 0 <= i < |w.spaces| ==> IsSpace(w.spaces[i])
  }

  function LineOf(words: seq<Word>): string {
    if words == [] then "" else LineOf(words[..|words| - 1]) + TypedAll(words[|words| - 1].pieces) + words[|words| - 1].spaces
  }

  function ArgsOf(words: seq<Word>): seq<string> {
    if words == [] then [] else ArgsOf(words[..|words| - 1]) + [Meant(words[|words| - 1].pieces)]
  }

  /** A typed line gives its arguments, whatever white space is between them, empty quoted ones included. */
  lemma {:induction false} ScanLine(words: seq<Word>)
    requires forall i :: 0 <= i < |words| ==> GoodWord(words[i])
    ensures Scanned(START, LineOf(words)) == Scan("", "", false, ArgsOf(words))
    decreases |words|
  {
    if words != [] {
      var before, w := words[..|words| - 1], words[|words| - 1];
      ScanLine(before);
      assert GoodWord(w);
      ScanWord(ArgsOf(before), w);
      ScannedAppend(START, LineOf(before), TypedAll(w.pieces) + w.spaces);
      assert LineOf(words) == LineOf(before) + (TypedAll(w.pieces) + w.spaces);
    }
  }

  lemma ScanWord(out: seq<string>, w: Word)
    requires GoodWord(w)
    ensures Scanned(Scan("", "", false, out), TypedAll(w.pieces) + w.spaces) == Scan("", "", false, out + [Meant(w.pieces)])
  {
    ScanPieces(w.pieces, out);
    ScannedAppend(Scan("", "", false, out), TypedAll(w.pieces), w.spaces);
    ScanSpaces(Scan(Meant(w.pieces), "", true, out), w.spaces);
  }

  lemma {:induction false} PiecesAreFirm(ps: seq<Piece>)
    requires ps != [] && forall i :: 0 <= i < |ps| ==> GoodPiece(ps[i])
    ensures Firm(TypedAll(ps), IsSpace)
    decreases |ps|
  {
    var before, p := ps[..|ps| - 1], ps[|ps| - 1];
    assert GoodPiece(p) && Firm(Typed(p), IsSpace);
    if before != [] {
      PiecesAreFirm(before);
    }
  }

  lemma {:induction false} LineStartsFirm(words: seq<Word>)
    requires words != [] && forall i :: 0 <= i < |words| ==> GoodWord(words[i])
    ensures LineOf(words) != "" && !IsSpace(LineOf(words)[0])
    decreases |words|
  {
    var before, w := words[..|words| - 1], words[|words| - 1];
    assert GoodWord(w);
    PiecesAreFirm(w.pieces);
    if before != [] {
      LineStartsFirm(before);
    }
  }

  /**
   What a typed line means: arguments of bare and quoted pieces, single quotes as good as double
   ones, with any white space before, between and after them, come out as they were meant.
   */
  lemma SplitGivesArguments(before: string, words: seq<Word>, last: seq<Piece>, after: string)
    requires AllOf(before, IsSpace) && AllOf(after, IsSpace)
    requires forall i :: 0 <= i < |words| ==> GoodWord(words[i])
    requires last != [] && forall i :: 0 <= i < |last| ==> GoodPiece(last[i])
    ensures SplitOf(before + (LineOf(words) + TypedAll(last) + after)) == ArgsOf(words) + [Meant(last)]
  {
    PiecesAreFirm(last);
    if words != [] {
      LineStartsFirm(words);
    }
    TrimTo(before, LineOf(words) + TypedAll(last), after, IsSpace);
    ScanLine(words);
    ScannedAppend(START, LineOf(words), TypedAll(last));
    ScanPieces(last, ArgsOf(words));
  }
}
