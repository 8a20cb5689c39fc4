/**
 * The client's text handling: `std::getline`-style splitting, the header and
 * body readers applied to every frame the server sends, the decimal
 * conversions of `std::to_string` and `std::stoi`, and the frames the client
 * writes. The client and the broker lay frames out the same way, so the
 * frames here are built with the broker's `FormatFrame`.
 */
module ClientFrames {
  import opened Wrappers
  import opened Text
  import opened Overwrite
  import ServerFrames

  // ---- Splitting ----

  /** `split`: the tokens a `std::getline` loop on delimiter `d` produces.
      Every piece between delimiters is a token, except that a delimiter at
      the very end does not open a further, empty token; the empty string
      has no tokens at all. */
  function Split(s: string, d: char): (r: seq<string>)
    ensures forall k :: 0 <= k < |r| ==> d !in r[k]
    ensures r == [] <==> s == []
  {
    var p := SplitAll(s, d);
    LastPiece(s, d);
    if p[|p| - 1] == "" then p[..|p| - 1] else p
  }

  /** The last piece of a split is empty exactly when the string is empty or
      ends with the delimiter. */
  lemma {:induction false} LastPiece(s: string, d: char)
    ensures var p := SplitAll(s, d);
      p[|p| - 1] == "" <==> s == [] || s[|s| - 1] == d
    ensures s != [] ==> |SplitAll(s, d)| >= 2 || SplitAll(s, d)[0] != ""
  {
    if s != [] {
      LastPiece(s[1..], d);
      var rest := SplitAll(s[1..], d);
      if s[0] != d && |rest| == 1 {
        assert s[1..] == [] || s[1..][|s[1..]| - 1] != d;
      }
    }
  }

  /** Gluing the tokens back with `d` gives the string again, up to the one
      trailing delimiter the loop swallows. */
  lemma SplitJoin(s: string, d: char)
    ensures Join(Split(s, d), d) + (if s != [] && s[|s| - 1] == d then [d] else []) == s
  {
    var p := SplitAll(s, d);
    JoinSplitAll(s, d);
    LastPiece(s, d);
    if s == [] {
    } else if s[|s| - 1] == d {
      assert Split(s, d) == p[..|p| - 1];
      JoinDropEmpty(p, d);
    } else {
      assert Split(s, d) == p;
    }
  }

  /** Dropping a final empty piece drops the delimiter before it. */
  lemma {:induction false} JoinDropEmpty(p: seq<string>, d: char)
    requires |p| >= 2 && p[|p| - 1] == ""
    ensures Join(p[..|p| - 1], d) + [d] == Join(p, d)
  {
    if |p| == 2 {
      assert p[..1] == [p[0]];
      assert p[1..] == [""];
    } else {
      var q := p[1..];
      JoinDropEmpty(q, d);
      assert p[..|p| - 1][1..] == q[..|q| - 1];
      assert |p[..|p| - 1]| >= 2;
      calc {
        Join(p[..|p| - 1], d) + [d];
        (p[0] + [d] + Join(q[..|q| - 1], d)) + [d];
        p[0] + [d] + (Join(q[..|q| - 1], d) + [d]);
        Join(p, d);
      }
    }
  }

  /** The frame's lines, read with `std::getline`. */
  function Lines(frame: string): seq<string> {
    Split(frame, '\n')
  }

  /** Drops one carriage return from the end, as after a Windows line end. */
  function StripCR(s: string): (r: string)
    ensures s != [] && s[|s| - 1] == '\r' ==> r + "\r" == s
    ensures !(s != [] && s[|s| - 1] == '\r') ==> r == s
  {
    if s != [] && s[|s| - 1] == '\r' then s[..|s| - 1] else s
  }

  // ---- Reading a frame ----

  /** The command: the first line with one trailing carriage return removed,
      or nothing when the frame is empty. */
  function CommandOf(frame: string): (r: string)
    ensures frame == [] ==> r == ""
    ensures '\n' !in r
  {
    var lines := Lines(frame);
    if lines == [] then "" else StripCR(lines[0])
  }

  /** The leading lines up to the first one that is empty or a lone
      carriage return. */
  function Block(lines: seq<string>): (r: seq<string>)
    ensures |r| <= |lines| && r == lines[..|r|]
    ensures forall k :: 0 <= k < |r| ==> r[k] != "" && r[k] != "\r"
    ensures |r| < |lines| ==> lines[|r|] == "" || lines[|r|] == "\r"
  {
    if lines == [] || lines[0] == "" || lines[0] == "\r" then [] else [lines[0]] + Block(lines[1..])
  }

  /** One header line: split on its first colon, one carriage return removed
      from the value; a line without a colon carries no header. */
  function ParseLine(line: string): (r: Option<(string, string)>)
    ensures r.None? <==> ':' !in line
    ensures r.Some? ==> ':' !in r.value.0
  {
    match IndexOf(line, ":")
    case None =>
      ServerFrames.NoOccurrenceNoChar(line, ':');
      None
    case Some(i) =>
      assert line[i..i + 1][0] == line[i];
      assert forall k :: 0 <= k < i ==> !OccursAt(line, ":", k) && line[k..k + 1] == [line[k]];
      Some((line[..i], StripCR(line[i + 1..])))
  }

  /** A colon-free key followed by a colon and a value reads back as that
      key and value, less one trailing carriage return. */
  lemma ParseLineOf(key: string, value: string)
    requires ':' !in key
    ensures ParseLine(key + ":" + value) == Some((key, StripCR(value)))
  {
    var line := key + ":" + value;
    assert OccursAt(line, ":", |key|);
    forall j: nat | j < |key| ensures !OccursAt(line, ":", j) {
      assert line[j..j + 1][0] == key[j];
    }
    assert line[..|key|] == key;
    assert line[|key| + 1..] == value;
  }

  /** The headers the lines carry, in order. */
  function Pairs(lines: seq<string>): (r: seq<(string, string)>)
    ensures |r| <= |lines|
    ensures forall j :: 0 <= j < |r| ==> ':' !in r[j].0
  {
    if lines == [] then []
    else LinePair(lines[0]) + Pairs(lines[1..])
  }

  function LinePair(line: string): (r: seq<(string, string)>)
    ensures |r| <= 1 && forall j :: 0 <= j < |r| ==> ':' !in r[j].0
  {
    match ParseLine(line) case Some(p) => [p] case None => []
  }

  /** Line `i` carries a header named `k`. */
  predicate Carries(lines: seq<string>, k: string, i: int) {
    0 <= i < |lines| && ParseLine(lines[i]).Some? && ParseLine(lines[i]).value.0 == k
  }

  /** Line `i` is the last line carrying a header named `k`. */
  predicate LastCarries(lines: seq<string>, k: string, i: int) {
    Carries(lines, k, i) && forall l :: i < l < |lines| ==> !Carries(lines, k, l)
  }

  lemma {:induction false} PairsHas(lines: seq<string>, k: string)
    ensures k in Collect(Pairs(lines)) <==> exists i :: Carries(lines, k, i)
  {
    if lines != [] {
      var head := LinePair(lines[0]);
      var tail := lines[1..];
      PairsHas(tail, k);
      CollectAppend(head, Pairs(tail));
      assert k in Collect(head) <==> Carries(lines, k, 0) by {
        assert [] == head[..0];
      }
      if exists i :: Carries(lines, k, i) {
        var i :| Carries(lines, k, i);
        if i > 0 {
          assert Carries(tail, k, i - 1);
        }
      }
      if exists i :: Carries(tail, k, i) {
        var i :| Carries(tail, k, i);
        assert Carries(lines, k, i + 1);
      }
    }
  }

  lemma {:induction false} PairsLast(lines: seq<string>, k: string, i: int)
    requires LastCarries(lines, k, i)
    ensures k in Collect(Pairs(lines)) && Collect(Pairs(lines))[k] == ParseLine(lines[i]).value.1
  {
    CollectAppend(LinePair(lines[0]), Pairs(lines[1..]));
    if i > 0 {
      ShiftLastCarries(lines, k, i);
      PairsLast(lines[1..], k, i - 1);
    } else {
      NoneAfterFirstLine(lines, k);
      var p := ParseLine(lines[0]).value;
      assert LinePair(lines[0]) == [p];
      assert Collect([p]) == map[p.0 := p.1] by {
        assert [p][..0] == [];
      }
    }
  }

  lemma ShiftCarries(lines: seq<string>, k: string, l: int)
    requires lines != [] && 0 <= l
    ensures Carries(lines, k, l + 1) <==> Carries(lines[1..], k, l)
  {
    if l < |lines[1..]| {
      assert lines[1..][l] == lines[l + 1];
    }
  }

  lemma ShiftLastCarries(lines: seq<string>, k: string, i: int)
    requires LastCarries(lines, k, i) && i > 0
    ensures LastCarries(lines[1..], k, i - 1)
  {
    ShiftCarries(lines, k, i - 1);
    forall l | i - 1 < l < |lines[1..]| ensures !Carries(lines[1..], k, l) {
      ShiftCarries(lines, k, l);
    }
  }

  lemma NoneAfterFirstLine(lines: seq<string>, k: string)
    requires LastCarries(lines, k, 0)
    ensures k !in Collect(Pairs(lines[1..]))
  {
    PairsHas(lines[1..], k);
    forall l | 0 <= l ensures !Carries(lines[1..], k, l) {
      ShiftCarries(lines, k, l);
    }
  }

  /** `parseHeaders`: the command line skipped, the header block read, later
      duplicates overwriting earlier ones. */
  function HeadersOf(frame: string): map<string, string> {
    var lines := Lines(frame);
    if lines == [] then map[] else Collect(Pairs(Block(lines[1..])))
  }

  /** A name is among a frame's headers exactly when some line of its header
      block carries it, and its value comes from the last such line. */
  lemma HeadersOfLastWins(frame: string)
    ensures Lines(frame) == [] ==> HeadersOf(frame) == map[]
    ensures Lines(frame) != [] ==> var block := Block(Lines(frame)[1..]); var h := HeadersOf(frame);
      && (forall k :: k in h <==> exists i :: Carries(block, k, i))
      && (forall k, i :: LastCarries(block, k, i) ==> k in h && h[k] == ParseLine(block[i]).value.1)
  {
    var lines := Lines(frame);
    if lines != [] {
      var block := Block(lines[1..]);
      forall k ensures k in Collect(Pairs(block)) <==> exists i :: Carries(block, k, i) {
        PairsHas(block, k);
      }
      forall k, i | LastCarries(block, k, i)
        ensures k in Collect(Pairs(block)) && Collect(Pairs(block))[k] == ParseLine(block[i]).value.1
      {
        PairsLast(block, k, i);
      }
    }
  }

  /** `extractBody`: everything after the first blank line; failing that,
      everything after the first Windows blank line; failing that, nothing. */
  function BodyOf(frame: string): (r: string)
    ensures forall i: nat :: ServerFrames.FirstAt(frame, "\n\n", i) ==> r == frame[i + 2..]
    ensures (forall j: nat :: !OccursAt(frame, "\n\n", j))
            ==> forall i: nat :: ServerFrames.FirstAt(frame, "\r\n\r\n", i) ==> r == frame[i + 4..]
    ensures (forall j: nat :: !OccursAt(frame, "\n\n", j) && !OccursAt(frame, "\r\n\r\n", j)) ==> r == ""
  {
    match IndexOf(frame, "\n\n")
    case Some(i) => frame[i + 2..]
    case None =>
      match IndexOf(frame, "\r\n\r\n")
      case Some(i) => frame[i + 4..]
      case None => ""
  }

  // ---- Reading what the broker writes ----

  /** A header line of a well-formed frame ends the block neither early nor
      late. */
  lemma {:induction false} BlockOfHeaders(hs: seq<(string, string)>, rest: seq<string>)
    requires ServerFrames.AllClean(hs)
    ensures Block(ServerFrames.HeaderLines(hs) + ([""] + rest)) == ServerFrames.HeaderLines(hs)
  {
    var all := ServerFrames.HeaderLines(hs) + ([""] + rest);
    if hs == [] {
      assert all == [""] + rest;
      assert all[0] == "";
    } else {
      var line := ServerFrames.HeaderLine(hs[0]);
      var tail := ServerFrames.HeaderLines(hs[1..]);
      ServerFrames.CleanLine(hs[0]);
      HeaderLineNotCR(hs[0]);
      BlockOfHeaders(hs[1..], rest);
      assert ServerFrames.HeaderLines(hs) == [line] + tail;
      ConsSlice(line, tail, [""] + rest);
      BlockCons(all);
    }
  }

  lemma BlockCons(lines: seq<string>)
    requires lines != [] && lines[0] != "" && lines[0] != "\r"
    ensures Block(lines) == [lines[0]] + Block(lines[1..])
  {
  }

  /** Clean header lines with nothing after them form the whole block. */
  lemma {:induction false} BlockAllHeaders(hs: seq<(string, string)>)
    requires ServerFrames.AllClean(hs)
    ensures Block(ServerFrames.HeaderLines(hs)) == ServerFrames.HeaderLines(hs)
  {
    if hs != [] {
      var lines := ServerFrames.HeaderLines(hs);
      ServerFrames.CleanLine(hs[0]);
      HeaderLineNotCR(hs[0]);
      BlockAllHeaders(hs[1..]);
      assert lines[1..] == ServerFrames.HeaderLines(hs[1..]);
      BlockCons(lines);
    }
  }

  /** A header line is never a lone carriage return. */
  lemma HeaderLineNotCR(h: (string, string))
    ensures ServerFrames.HeaderLine(h) != "\r"
  {
    var line := ServerFrames.HeaderLine(h);
    assert line[|h.0|] == ':';
  }

  /** Clean header lines read back as the headers they were made from. */
  lemma {:induction false} PairsOfLines(hs: seq<(string, string)>)
    requires ServerFrames.AllClean(hs)
    ensures Pairs(ServerFrames.HeaderLines(hs)) == hs
  {
    if hs != [] {
      var h := hs[0];
      var lines := ServerFrames.HeaderLines(hs);
      assert lines[0] == ServerFrames.HeaderLine(h) && lines[1..] == ServerFrames.HeaderLines(hs[1..]);
      ParseLineOf(h.0, h.1);
      CleanValueNoCR(h.1);
      PairsOfLines(hs[1..]);
      HeadTail(hs);
    }
  }

  /** A value that trimming leaves alone does not end in a carriage return. */
  lemma CleanValueNoCR(v: string)
    requires ServerFrames.Trim(v) == v
    ensures StripCR(v) == v
  {
  }

  /** The client reads the broker's frames exactly: the command, the headers
      (later duplicates winning) and the body. */
  lemma ReadsFormatted(command: string, hs: seq<(string, string)>, body: string)
    requires command != [] && '\n' !in command && command[|command| - 1] != '\r'
    requires ServerFrames.AllClean(hs)
    ensures var frame := ServerFrames.FormatFrame(command, hs, body);
      && CommandOf(frame) == command
      && HeadersOf(frame) == Collect(hs)
      && BodyOf(frame) == body
  {
    var n := FormattedLinesShape(command, hs, body);
    BlockOfHeaders(hs, n);
    PairsOfLines(hs);
    ReadsFormattedBody(command, hs, body);
  }

  /** The lines of a formatted frame: the command, the header lines, the
      blank line, then some of the body's lines. */
  lemma FormattedLinesShape(command: string, hs: seq<(string, string)>, body: string) returns (rest: seq<string>)
    requires '\n' !in command
    requires ServerFrames.AllClean(hs)
    ensures var lines := Lines(ServerFrames.FormatFrame(command, hs, body));
      lines != [] && lines[0] == command && lines[1..] == ServerFrames.HeaderLines(hs) + ([""] + rest)
  {
    var frame := ServerFrames.FormatFrame(command, hs, body);
    var hl := ServerFrames.HeaderLines(hs);
    var pieces := SplitAll(body, '\n');
    ServerFrames.FormattedPieces(command, hs, body);
    var p := SplitAll(frame, '\n');
    var t := hl + ([""] + pieces);
    assert p == [command] + t;
    var lines := Lines(frame);
    DropLastAppend([""], pieces);
    DropLastAppend(hl, [""] + pieces);
    DropLastAppend([command], t);
    if p[|p| - 1] == "" {
      rest := pieces[..|pieces| - 1];
      assert lines == p[..|p| - 1];
      assert lines == [command] + (hl + ([""] + rest));
    } else {
      rest := pieces;
      assert lines == [command] + t;
    }
    ConsTail(command, hl + ([""] + rest));
  }

  lemma ReadsFormattedBody(command: string, hs: seq<(string, string)>, body: string)
    requires '\n' !in command
    requires ServerFrames.AllClean(hs)
    ensures BodyOf(ServerFrames.FormatFrame(command, hs, body)) == body
  {
    ServerFrames.FormattedBlank(command, hs, body);
  }

  /** A bodiless frame with its final newline cut off still reads as its
      command and headers. */
  lemma ReadsBodiless(command: string, hs: seq<(string, string)>)
    requires command != [] && '\n' !in command && command[|command| - 1] != '\r'
    requires ServerFrames.AllClean(hs)
    ensures var f := ServerFrames.FormatFrame(command, hs, "");
      && |f| > 0
      && var frame := f[..|f| - 1];
      && CommandOf(frame) == command
      && HeadersOf(frame) == Collect(hs)
  {
    BodilessLines(command, hs);
    BlockAllHeaders(hs);
    PairsOfLines(hs);
  }

  /** The lines of a bodiless frame less its final newline: the command,
      then the header lines. */
  lemma BodilessLines(command: string, hs: seq<(string, string)>)
    requires '\n' !in command
    requires ServerFrames.AllClean(hs)
    ensures var f := ServerFrames.FormatFrame(command, hs, "");
      && |f| > 0
      && var lines := Lines(f[..|f| - 1]);
      && lines != [] && lines[0] == command && lines[1..] == ServerFrames.HeaderLines(hs)
  {
    var f := ServerFrames.FormatFrame(command, hs, "");
    var hl := ServerFrames.HeaderLines(hs);
    ServerFrames.FormattedPieces(command, hs, "");
    ServerFrames.FrameTailEnds(hs);
    var frame := f[..|f| - 1];
    assert frame + ['\n'] == f;
    SplitAllSnoc(frame, '\n');
    var p := SplitAll(frame, '\n');
    assert SplitAll("", '\n') == [""];
    var q := [command] + hl + [""];
    assert p + [""] == q + [""];
    assert p == q by {
      assert p == (p + [""])[..|p|] && q == (q + [""])[..|q|];
    }
    assert p[|p| - 1] == "";
    assert Lines(frame) == p[..|p| - 1];
    assert p[..|p| - 1] == [command] + hl;
    ConsTail(command, hl);
  }

  // ---- The listener ----

  /** The characters before the first NUL: what `getFrameAscii` with the
      delimiter `'\0'` hands back, the delimiter itself dropped. */
  function BeforeNul(s: string): (r: string)
    ensures |r| <= |s| && r == s[..|r|] && '\0' !in r
    ensures |r| < |s| ==> s[|r|] == '\0'
  {
    if s == [] || s[0] == '\0' then [] else [s[0]] + BeforeNul(s[1..])
  }

  /** One turn of the listener loop: the text of the next frame up to its
      NUL, less one trailing newline; nothing when the connection ends
      before a NUL arrives. */
  function Received(wire: string): (r: Option<string>)
    ensures r.None? <==> '\0' !in wire
    ensures r.Some? ==> '\0' !in r.value
    ensures r.Some? ==> var v := r.value;
      || (|v| + 2 <= |wire| && wire[..|v| + 2] == v + "\n\0")
      || (|v| + 1 <= |wire| && wire[..|v| + 1] == v + "\0" && (v == [] || v[|v| - 1] != '\n'))
  {
    var a := BeforeNul(wire);
    if |a| == |wire| then None
    else
      assert wire[..|a| + 1] == a + "\0";
      if a != [] && a[|a| - 1] == '\n' then
        assert a == a[..|a| - 1] + "\n";
        Some(a[..|a| - 1])
      else Some(a)
  }

  /** Text free of NUL, then the NUL, is cut back to that text. */
  lemma {:induction false} BeforeNulPrefix(a: string, rest: string)
    requires '\0' !in a
    ensures BeforeNul(a + "\0" + rest) == a
  {
    if a != [] {
      BeforeNulPrefix(a[1..], rest);
      assert (a + "\0" + rest)[1..] == a[1..] + "\0" + rest;
      HeadTail(a);
    }
  }

  /** A NUL-free text followed by a newline and the NUL is received as
      that text, whatever comes after. */
  lemma ReceivedLine(a: string, rest: string)
    requires '\0' !in a
    ensures Received(a + "\n" + "\0" + rest) == Some(a)
  {
    BeforeNulPrefix(a + "\n", rest);
    assert (a + "\n")[..|a|] == a;
  }

  /** A frame whose body ends in a newline and the NUL arrives as the same
      frame with that newline and the NUL removed. */
  lemma ReceivedFormatted(command: string, hs: seq<(string, string)>, body: string, rest: string)
    requires '\0' !in command && ServerFrames.FreeOf(hs, '\0') && '\0' !in body
    ensures Received(ServerFrames.FormatFrame(command, hs, body + "\n\0") + rest)
         == Some(ServerFrames.FormatFrame(command, hs, body))
  {
    var f := ServerFrames.FormatFrame(command, hs, body);
    ServerFrames.FormatAppend(command, hs, body, "\n\0");
    ServerFrames.FormatFree(command, hs, body, '\0');
    assert f + "\n\0" + rest == f + "\n" + "\0" + rest;
    ReceivedLine(f, rest);
  }

  /** A frame whose body is just the NUL arrives without its final
      newline. */
  lemma ReceivedBodiless(command: string, hs: seq<(string, string)>, rest: string)
    requires '\0' !in command && ServerFrames.FreeOf(hs, '\0')
    ensures var f := ServerFrames.FormatFrame(command, hs, "");
      && |f| > 0
      && Received(ServerFrames.FormatFrame(command, hs, "\0") + rest) == Some(f[..|f| - 1])
  {
    var f := ServerFrames.FormatFrame(command, hs, "");
    ServerFrames.FrameTailEnds(hs);
    ServerFrames.FormatAppend(command, hs, "", "\0");
    ServerFrames.FormatFree(command, hs, "", '\0');
    var a := f[..|f| - 1];
    assert f == a + "\n";
    assert '\0' !in a by {
      forall j | 0 <= j < |a| ensures a[j] != '\0' {
        assert a[j] == f[j];
      }
    }
    assert "" + "\0" == "\0";
    var wire := ServerFrames.FormatFrame(command, hs, "\0") + rest;
    assert wire == a + "\n" + "\0" + rest;
    ReceivedLine(a, rest);
  }

  // ---- Numbers ----

  const IntMin: int := -0x8000_0000
  const IntMax: int := 0x7fff_ffff

  /** `std::to_string` of an `int`. */
  function IntToString(i: int): (r: string)
    ensures r != [] && (r[0] == '-' <==> i < 0)
  {
    if i < 0 then "-" + NatToString(-i) else NatToString(i)
  }

  /** The white space `strtol` skips before a number. */
  predicate IsSpace(c: char) {
    c == ' ' || c == '\t' || c == '\n' || c == '\U{B}' || c == '\U{C}' || c == '\r'
  }

  function LeadingSpace(s: string): (n: nat)
    ensures n <= |s|
    ensures forall k :: 0 <= k < n ==> IsSpace(s[k])
    ensures n < |s| ==> !IsSpace(s[n])
  {
    if s == [] || !IsSpace(s[0]) then 0 else 1 + LeadingSpace(s[1..])
  }

  /** The length of the longest all-digit prefix. */
  function DigitRun(s: string): (n: nat)
    ensures n <= |s| && AllDigits(s[..n])
    ensures n < |s| ==> !IsDigit(s[n])
  {
    if s == [] || !IsDigit(s[0]) then 0
    else
      var n := 1 + DigitRun(s[1..]);
      assert forall k :: 1 <= k < n ==> s[..n][k] == s[1..][..n - 1][k - 1];
      n
  }

  /** `std::stoi`: optional white space, an optional sign, then at least one
      digit, with anything after the digits ignored. No digits, or a value
      outside the range of a 32-bit `int`, raises an exception, which is
      `None` here. */
  function Stoi(s: string): (r: Option<int>)
    ensures r.Some? ==> IntMin <= r.value <= IntMax
  {
    var t := s[LeadingSpace(s)..];
    var negative := t != [] && t[0] == '-';
    var u := if t != [] && (t[0] == '-' || t[0] == '+') then t[1..] else t;
    var n := DigitRun(u);
    if n == 0 then None
    else
      var magnitude: int := DigitsValue(u[..n]);
      var v: int := if negative then -magnitude else magnitude;
      if IntMin <= v <= IntMax then Some(v) else None
  }

  /** A string with no digit at all does not convert. */
  lemma StoiNoDigits(s: string)
    requires forall k :: 0 <= k < |s| ==> !IsDigit(s[k])
    ensures Stoi(s).None?
  {
    var t := s[LeadingSpace(s)..];
    var u := if t != [] && (t[0] == '-' || t[0] == '+') then t[1..] else t;
    if u != [] {
      assert u[0] in s;
    }
  }

  /** White space in front does not change the conversion. */
  lemma StoiSkipsSpace(c: char, s: string)
    requires IsSpace(c)
    ensures Stoi([c] + s) == Stoi(s)
  {
    var cs := [c] + s;
    assert cs[1..] == s;
    assert LeadingSpace(cs) == 1 + LeadingSpace(s);
    assert cs[LeadingSpace(cs)..] == s[LeadingSpace(s)..];
  }

  /** `std::stoi` reads back what `std::to_string` writes, over the whole
      range of `int`. */
  lemma StoiIntToString(i: int)
    requires IntMin <= i <= IntMax
    ensures Stoi(IntToString(i)) == Some(i)
  {
    var r := IntToString(i);
    if i < 0 {
      var d := NatToString(-i);
      assert r[1..] == d;
      assert !IsSpace(r[0]);
      DigitRunAll(d);
      assert d[..|d|] == d;
    } else {
      var d := NatToString(i);
      assert !IsSpace(d[0]) && d[0] != '-' && d[0] != '+';
      DigitRunAll(d);
      assert d[..|d|] == d;
    }
  }

  lemma DigitRunAll(s: string)
    requires AllDigits(s)
    ensures DigitRun(s) == |s|
  {
    if s != [] {
      DigitRunAll(s[1..]);
    }
  }

  // ---- The frames the client writes ----

  /** `login`'s CONNECT frame. The NUL written at the end of the literal is
      lost when it is appended to a `std::string`, so the frame text ends in
      the blank line. */
  function ConnectFrame(hostPort: string, username: string, password: string): string {
    ServerFrames.FormatFrame("CONNECT",
      [("accept-version", "1.2"), ("host", hostPort), ("login", username), ("passcode", password)], "")
  }

  /** `joinGame`'s SUBSCRIBE frame; the destination gets a leading slash. */
  function SubscribeFrame(game: string, subscriptionId: int, receiptId: int): string {
    ServerFrames.FormatFrame("SUBSCRIBE",
      [("destination", "/" + game), ("id", IntToString(subscriptionId)), ("receipt", IntToString(receiptId))], "")
  }

  /** `exitGame`'s UNSUBSCRIBE frame. */
  function UnsubscribeFrame(subscriptionId: int, receiptId: int): string {
    ServerFrames.FormatFrame("UNSUBSCRIBE",
      [("id", IntToString(subscriptionId)), ("receipt", IntToString(receiptId))], "")
  }

  /** `logout`'s DISCONNECT frame. */
  function DisconnectFrame(receiptId: int): string {
    ServerFrames.FormatFrame("DISCONNECT", [("receipt", IntToString(receiptId))], "")
  }
}
