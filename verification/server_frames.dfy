/**
 * How the broker reads a frame's text: Java's `split("\n")` into lines, the
 * command as the trimmed first line, headers from the following lines up to
 * the first blank one, and the body after the first blank line.
 */
module ServerFrames {
  import opened Wrappers
  import opened Text
  import opened Overwrite

  // ---- Java's String.trim ----

  /** `trim` removes every character at or below the space character. */
  predicate IsTrimmable(c: char) {
    c <= ' '
  }

  function LeadingBlanks(s: string): (n: nat)
    ensures n <= |s|
    ensures forall k :: 0 <= k < n ==> IsTrimmable(s[k])
    ensures n < |s| ==> !IsTrimmable(s[n])
  {
    if s != [] && IsTrimmable(s[0]) then 1 + LeadingBlanks(s[1..]) else 0
  }

  function TrailingBlanks(s: string): (n: nat)
    ensures n <= |s|
    ensures forall k :: |s| - n <= k < |s| ==> IsTrimmable(s[k])
    ensures n < |s| ==> !IsTrimmable(s[|s| - n - 1])
  {
    if s != [] && IsTrimmable(s[|s| - 1]) then 1 + TrailingBlanks(s[..|s| - 1]) else 0
  }

  /** `r` is `s[a..b]`, and everything `s` has outside that slice is
      trimmable. */
  predicate TrimmedAt(s: string, r: string, a: int, b: int) {
    && 0 <= a <= b <= |s| && r == s[a..b]
    && (forall k :: 0 <= k < a ==> IsTrimmable(s[k]))
    && (forall k :: b <= k < |s| ==> IsTrimmable(s[k]))
  }

  /** Java's `String.trim`: `s` with its trimmable ends cut off. */
  function Trim(s: string): (r: string)
    ensures |r| <= |s|
    ensures r != [] ==> !IsTrimmable(r[0]) && !IsTrimmable(r[|r| - 1])
    ensures r == [] <==> forall k :: 0 <= k < |s| ==> IsTrimmable(s[k])
  {
    var t := s[LeadingBlanks(s)..];
    t[..|t| - TrailingBlanks(t)]
  }

  /** The trim of `s` is a slice of `s` with only trimmable characters
      outside it. */
  lemma TrimSlice(s: string)
    ensures exists a, b :: TrimmedAt(s, Trim(s), a, b)
  {
    var a := LeadingBlanks(s);
    var t := s[a..];
    var b := a + (|t| - TrailingBlanks(t));
    assert t[..|t| - TrailingBlanks(t)] == s[a..b];
    assert forall k :: b <= k < |s| ==> s[k] == t[k - a];
    assert TrimmedAt(s, Trim(s), a, b);
  }

  /** A string without trimmable ends is its own trim. */
  lemma TrimClean(s: string)
    requires s != [] ==> !IsTrimmable(s[0]) && !IsTrimmable(s[|s| - 1])
    ensures Trim(s) == s
  {
  }

  lemma TrimIdempotent(s: string)
    ensures Trim(Trim(s)) == Trim(s)
  {
    TrimClean(Trim(s));
  }

  // ---- Java's String.split("\n") ----

  /** Drops empty strings from the end, as Java's `split` does. */
  function DropTrailingEmpty(ts: seq<string>): (r: seq<string>)
    ensures |r| <= |ts| && r == ts[..|r|]
    ensures forall k :: |r| <= k < |ts| ==> ts[k] == ""
    ensures r != [] ==> r[|r| - 1] != ""
  {
    if ts != [] && ts[|ts| - 1] == "" then DropTrailingEmpty(ts[..|ts| - 1]) else ts
  }

  /** `message.split("\n")`: a message without a newline is its own single
      line (even when empty); otherwise the pieces between newlines with the
      trailing empty ones removed. */
  function SplitLines(message: string): (r: seq<string>)
    ensures forall k :: 0 <= k < |r| ==> '\n' !in r[k]
    ensures '\n' !in message ==> r == [message]
    ensures '\n' in message && r != [] ==> r[|r| - 1] != ""
    ensures '\n' in message ==>
              var pieces := SplitAll(message, '\n');
              && |r| <= |pieces| && r == pieces[..|r|]
              && forall k :: |r| <= k < |pieces| ==> pieces[k] == ""
  {
    if '\n' !in message then [message] else DropTrailingEmpty(SplitAll(message, '\n'))
  }

  // ---- Headers ----

  /** The leading lines of `lines` that are not blank once trimmed. */
  function UntilBlank(lines: seq<string>): (r: seq<string>)
    ensures |r| <= |lines| && r == lines[..|r|]
    ensures forall k :: 0 <= k < |r| ==> Trim(r[k]) != ""
    ensures |r| < |lines| ==> Trim(lines[|r|]) == ""
  {
    if lines == [] || Trim(lines[0]) == "" then []
    else
      var rest := UntilBlank(lines[1..]);
      var r := [lines[0]] + rest;
      assert r[1..] == rest && r[0] == lines[0];
      assert forall k :: 1 <= k < |r| ==> r[k] == rest[k - 1];
      r
  }

  /** The header lines: after the command line, up to the first blank one. */
  function HeaderBlock(lines: seq<string>): seq<string> {
    if lines == [] then [] else UntilBlank(lines[1..])
  }

  /** `i` is the position of the first colon of `t`. */
  predicate FirstColon(t: string, i: int) {
    0 <= i < |t| && t[i] == ':' && forall k :: 0 <= k < i ==> t[k] != ':'
  }

  /** A header line, trimmed, split on its first colon, with key and value
      trimmed; a line without a colon carries no header. */
  function HeaderPair(line: string): (r: Option<(string, string)>)
    ensures r.None? <==> ':' !in Trim(line)
    ensures var t := Trim(line);
      forall i :: FirstColon(t, i) ==> r == Some((Trim(t[..i]), Trim(t[i + 1..])))
  {
    var t := Trim(line);
    match IndexOf(t, ":")
    case None =>
      NoOccurrenceNoChar(t, ':');
      None
    case Some(i) =>
      IndexOfColon(t, i);
      Some((Trim(t[..i]), Trim(t[i + 1..])))
  }

  lemma IndexOfColon(t: string, i: nat)
    requires IndexOf(t, ":") == Some(i)
    ensures FirstColon(t, i)
  {
    assert t[i..i + 1][0] == t[i];
    forall j | 0 <= j < i ensures t[j] != ':' {
      assert !OccursAt(t, ":", j);
      assert t[j..j + 1] == [t[j]];
    }
  }

  lemma NoOccurrenceNoChar(t: string, c: char)
    requires forall j: nat :: !OccursAt(t, [c], j)
    ensures c !in t
  {
    forall k | 0 <= k < |t| ensures t[k] != c {
      assert !OccursAt(t, [c], k);
      assert t[k..k + 1] == [t[k]];
    }
  }

  /** The headers the lines carry, in order. */
  function PairsOf(lines: seq<string>): seq<(string, string)> {
    if lines == [] then []
    else
      (match HeaderPair(lines[0]) case Some(p) => [p] case None => []) + PairsOf(lines[1..])
  }

  /** Line `i` carries a header named `k`. */
  predicate HasHeader(lines: seq<string>, k: string, i: int) {
    0 <= i < |lines| && HeaderPair(lines[i]).Some? && HeaderPair(lines[i]).value.0 == k
  }

  /** Line `i` is the last line carrying a header named `k`. */
  predicate LastHeader(lines: seq<string>, k: string, i: int) {
    HasHeader(lines, k, i) && forall l :: i < l < |lines| ==> !HasHeader(lines, k, l)
  }

  function HeadPair(line: string): seq<(string, string)> {
    match HeaderPair(line) case Some(p) => [p] case None => []
  }

  lemma {:induction false} PairsOfHas(lines: seq<string>, k: string)
    ensures k in Collect(PairsOf(lines)) <==> exists i :: HasHeader(lines, k, i)
  {
    if lines != [] {
      var head := HeadPair(lines[0]);
      var tail := lines[1..];
      PairsOfHas(tail, k);
      CollectAppend(head, PairsOf(tail));
      assert PairsOf(lines) == head + PairsOf(tail);
      assert k in Collect(head) <==> HasHeader(lines, k, 0);
      if exists i :: HasHeader(lines, k, i) {
        var i :| HasHeader(lines, k, i);
        if i > 0 {
          assert HasHeader(tail, k, i - 1);
        }
      }
      if exists i :: HasHeader(tail, k, i) {
        var i :| HasHeader(tail, k, i);
        assert HasHeader(lines, k, i + 1);
      }
    }
  }

  lemma {:induction false} PairsOfLast(lines: seq<string>, k: string, i: int)
    requires LastHeader(lines, k, i)
    ensures k in Collect(PairsOf(lines)) && Collect(PairsOf(lines))[k] == HeaderPair(lines[i]).value.1
  {
    PairsOfSplit(lines);
    if i > 0 {
      ShiftLast(lines, k, i);
      PairsOfLast(lines[1..], k, i - 1);
    } else {
      NoneAfterFirst(lines, k);
      var p := HeaderPair(lines[0]).value;
      assert HeadPair(lines[0]) == [p];
      assert Collect([p]) == map[p.0 := p.1] by {
        assert [p][..0] == [];
      }
    }
  }

  lemma PairsOfSplit(lines: seq<string>)
    requires lines != []
    ensures Collect(PairsOf(lines)) == Collect(HeadPair(lines[0])) + Collect(PairsOf(lines[1..]))
  {
    assert PairsOf(lines) == HeadPair(lines[0]) + PairsOf(lines[1..]);
    CollectAppend(HeadPair(lines[0]), PairsOf(lines[1..]));
  }

  lemma ShiftHas(lines: seq<string>, k: string, l: int)
    requires lines != [] && 0 <= l
    ensures HasHeader(lines, k, l + 1) <==> HasHeader(lines[1..], k, l)
  {
    if l < |lines[1..]| {
      assert lines[1..][l] == lines[l + 1];
    }
  }

  lemma ShiftLast(lines: seq<string>, k: string, i: int)
    requires LastHeader(lines, k, i) && i > 0
    ensures LastHeader(lines[1..], k, i - 1)
  {
    ShiftHas(lines, k, i - 1);
    forall l | i - 1 < l < |lines[1..]| ensures !HasHeader(lines[1..], k, l) {
      ShiftHas(lines, k, l);
    }
  }

  lemma NoneAfterFirst(lines: seq<string>, k: string)
    requires LastHeader(lines, k, 0)
    ensures k !in Collect(PairsOf(lines[1..]))
  {
    PairsOfHas(lines[1..], k);
    forall l | 0 <= l ensures !HasHeader(lines[1..], k, l) {
      ShiftHas(lines, k, l);
    }
  }

  /** `parseHeaders`: a name is present exactly when some header line
      carries it, and its value comes from the last such line. */
  function ParseHeaders(message: string): (h: map<string, string>)
    ensures var block := HeaderBlock(SplitLines(message));
      && (forall k :: k in h <==> exists i :: HasHeader(block, k, i))
      && (forall k, i :: LastHeader(block, k, i) ==> k in h && h[k] == HeaderPair(block[i]).value.1)
  {
    var block := HeaderBlock(SplitLines(message));
    forall k ensures k in Collect(PairsOf(block)) <==> exists i :: HasHeader(block, k, i) {
      PairsOfHas(block, k);
    }
    forall k, i | LastHeader(block, k, i)
      ensures k in Collect(PairsOf(block)) && Collect(PairsOf(block))[k] == HeaderPair(block[i]).value.1
    {
      PairsOfLast(block, k, i);
    }
    Collect(PairsOf(block))
  }

  /** `extractBody`: everything after the first blank line, or nothing. */
  function ExtractBody(message: string): (r: string)
    ensures (forall j: nat :: !OccursAt(message, "\n\n", j)) ==> r == ""
    ensures forall i: nat :: FirstAt(message, "\n\n", i) ==> r == message[i + 2..]
  {
    match IndexOf(message, "\n\n")
    case None => ""
    case Some(i) => message[i + 2..]
  }

  /** The trimmed first line, when `split` yields any line at all: there is
      none exactly when the message is nothing but newlines. */
  function CommandLine(message: string): (r: Option<string>)
    ensures r.None? <==> message != [] && forall k :: 0 <= k < |message| ==> message[k] == '\n'
    ensures r.Some? ==> '\n' !in r.value && Trim(r.value) == r.value
    ensures '\n' !in message ==> r == Some(Trim(message))
  {
    var lines := SplitLines(message);
    AllEmptyPieces(message, '\n');
    TrimIdempotent(if lines == [] then "" else lines[0]);
    if lines == [] then None else Some(Trim(lines[0]))
  }

  predicate FirstAt(s: string, pat: string, i: nat) {
    OccursAt(s, pat, i) && forall j: nat :: j < i ==> !OccursAt(s, pat, j)
  }

  // ---- Reading back a well-formed frame ----

  /** A header the parser reads back unchanged: the key has no colon, neither
      part has a newline, and trimming changes neither. */
  predicate CleanHeader(h: (string, string)) {
    ':' !in h.0 && '\n' !in h.0 && '\n' !in h.1 && Trim(h.0) == h.0 && Trim(h.1) == h.1
  }

  predicate AllClean(hs: seq<(string, string)>) {
    hs == [] || (CleanHeader(hs[0]) && AllClean(hs[1..]))
  }

  function HeaderLine(h: (string, string)): string {
    h.0 + ":" + h.1
  }

  function HeaderLines(hs: seq<(string, string)>): seq<string> {
    if hs == [] then [] else [HeaderLine(hs[0])] + HeaderLines(hs[1..])
  }

  /** The frame text after the command line: header lines, a blank line, the body. */
  function FrameTail(hs: seq<(string, string)>, body: string): string {
    if hs == [] then "\n" + body else HeaderLine(hs[0]) + "\n" + FrameTail(hs[1..], body)
  }

  /** `COMMAND\nk1:v1\n...\n\nbody`, the layout of section "STOMP Frames" of STOMP 1.2
      without the terminator. */
  function FormatFrame(command: string, hs: seq<(string, string)>, body: string): string {
    command + "\n" + FrameTail(hs, body)
  }

  /** Text appended to the body stays at the end of the frame. */
  lemma {:induction false} FrameTailAppend(hs: seq<(string, string)>, body: string, x: string)
    ensures FrameTail(hs, body + x) == FrameTail(hs, body) + x
  {
    if hs != [] {
      FrameTailAppend(hs[1..], body, x);
    }
  }

  lemma FormatAppend(command: string, hs: seq<(string, string)>, body: string, x: string)
    ensures FormatFrame(command, hs, body + x) == FormatFrame(command, hs, body) + x
  {
    FrameTailAppend(hs, body, x);
  }

  /** No key and no value contains `c`. */
  predicate FreeOf(hs: seq<(string, string)>, c: char) {
    forall j :: 0 <= j < |hs| ==> c !in hs[j].0 && c !in hs[j].1
  }

  /** A character other than the separators occurs in a frame only where
      its command, headers or body put it. */
  lemma {:induction false} FrameTailFree(hs: seq<(string, string)>, body: string, c: char)
    requires c != '\n' && c != ':' && FreeOf(hs, c) && c !in body
    ensures c !in FrameTail(hs, body)
  {
    if hs != [] {
      assert FreeOf(hs[1..], c) by {
        forall j | 0 <= j < |hs[1..]| ensures c !in hs[1..][j].0 && c !in hs[1..][j].1 {
          assert hs[1..][j] == hs[j + 1];
        }
      }
      FrameTailFree(hs[1..], body, c);
      assert c !in hs[0].0 && c !in hs[0].1;
    }
  }

  lemma FormatFree(command: string, hs: seq<(string, string)>, body: string, c: char)
    requires c != '\n' && c != ':' && c !in command && FreeOf(hs, c) && c !in body
    ensures c !in FormatFrame(command, hs, body)
  {
    FrameTailFree(hs, body, c);
  }

  /** A frame without a body ends with its blank line. */
  lemma {:induction false} FrameTailEnds(hs: seq<(string, string)>)
    ensures var t := FrameTail(hs, ""); t != [] && t[|t| - 1] == '\n'
  {
    if hs != [] {
      FrameTailEnds(hs[1..]);
    }
  }

  lemma CleanLine(h: (string, string))
    requires CleanHeader(h)
    ensures var line := HeaderLine(h);
      && line != [] && '\n' !in line && line[0] != '\n'
      && Trim(line) == line && Trim(line) != ""
      && HeaderPair(line) == Some(h)
  {
    var line := HeaderLine(h);
    LineTrimmed(h);
    LineColon(h);
    assert line[..|h.0|] == h.0;
    assert line[|h.0| + 1..] == h.1;
  }

  lemma LineTrimmed(h: (string, string))
    requires CleanHeader(h)
    ensures var line := HeaderLine(h);
      line != [] && '\n' !in line && line[0] != '\n' && Trim(line) == line
  {
    var line := HeaderLine(h);
    assert line[|h.0|] == ':';
    if h.0 != [] {
      assert line[0] == h.0[0];
      assert !IsTrimmable(Trim(h.0)[0]);
    }
    if h.1 != [] {
      assert line[|line| - 1] == h.1[|h.1| - 1];
      assert !IsTrimmable(Trim(h.1)[|h.1| - 1]);
    }
    TrimClean(line);
  }

  lemma LineColon(h: (string, string))
    requires ':' !in h.0
    ensures IndexOf(HeaderLine(h), ":") == Some(|h.0|)
  {
    var line := HeaderLine(h);
    assert line[|h.0|..|h.0| + 1] == ":";
    assert OccursAt(line, ":", |h.0|);
    forall j: nat | j < |h.0| ensures !OccursAt(line, ":", j) {
      assert line[j] == h.0[j];
      assert line[j..j + 1][0] == line[j];
    }
  }

  lemma {:induction false} SplitFrameTail(hs: seq<(string, string)>, body: string)
    requires AllClean(hs)
    ensures SplitAll(FrameTail(hs, body), '\n') == HeaderLines(hs) + ([""] + SplitAll(body, '\n'))
  {
    if hs == [] {
      assert FrameTail(hs, body) == [] + ['\n'] + body;
      SplitAllPrefix([], body, '\n');
    } else {
      var line := HeaderLine(hs[0]);
      var rest := FrameTail(hs[1..], body);
      LineTrimmed(hs[0]);
      assert FrameTail(hs, body) == line + ['\n'] + rest;
      SplitFrameTail(hs[1..], body);
      SplitAllPrefix(line, rest, '\n');
      ConsSlice(line, HeaderLines(hs[1..]), [""] + SplitAll(body, '\n'));
    }
  }

  /** Header parsing ignores blank lines at the end, so dropping them first
      (as `split` does) does not matter. */
  lemma {:induction false} UntilBlankPrefix(lines: seq<string>, n: nat)
    requires n <= |lines|
    requires forall k :: n <= k < |lines| ==> Trim(lines[k]) == ""
    ensures UntilBlank(lines[..n]) == UntilBlank(lines)
  {
    if n == 0 {
      if lines != [] {
        assert Trim(lines[0]) == "";
      }
    } else if Trim(lines[0]) != "" {
      var l := lines[..n];
      assert l[0] == lines[0];
      assert l[1..] == lines[1..][..n - 1];
      UntilBlankPrefix(lines[1..], n - 1);
    } else {
      assert lines[..n][0] == lines[0];
    }
  }

  lemma {:induction false} UntilBlankHeaders(hs: seq<(string, string)>, rest: seq<string>)
    requires AllClean(hs)
    ensures UntilBlank(HeaderLines(hs) + ([""] + rest)) == HeaderLines(hs)
  {
    var all := HeaderLines(hs) + ([""] + rest);
    if hs == [] {
      assert all == [""] + rest;
      assert all[0] == "";
      assert Trim(all[0]) == "";
    } else {
      var line := HeaderLine(hs[0]);
      var tail := HeaderLines(hs[1..]);
      ConsSlice(line, tail, [""] + rest);
      LineTrimmed(hs[0]);
      assert all == [line] + (tail + ([""] + rest));
      assert all[0] == line && all[1..] == tail + ([""] + rest);
      UntilBlankHeaders(hs[1..], rest);
      UntilBlankCons(all);
    }
  }

  lemma UntilBlankCons(lines: seq<string>)
    requires lines != [] && Trim(lines[0]) != ""
    ensures UntilBlank(lines) == [lines[0]] + UntilBlank(lines[1..])
  {
  }

  lemma {:induction false} PairsOfHeaders(hs: seq<(string, string)>)
    requires AllClean(hs)
    ensures PairsOf(HeaderLines(hs)) == hs
  {
    if hs != [] {
      var line := HeaderLine(hs[0]);
      var tail := HeaderLines(hs[1..]);
      CleanLine(hs[0]);
      PairsOfHeaders(hs[1..]);
      assert HeaderLines(hs) == [line] + tail;
      PairsOfCons(line, tail, hs[0]);
      HeadTail(hs);
    }
  }

  lemma PairsOfCons(line: string, tail: seq<string>, h: (string, string))
    requires HeaderPair(line) == Some(h)
    ensures PairsOf([line] + tail) == [h] + PairsOf(tail)
  {
    ConsTail(line, tail);
  }

  /** Every newline in `c` is followed, still inside `c`, by another
      character: gluing `c` in front of any text creates no blank line. */
  predicate NoBlankWithin(c: string) {
    forall j :: 0 <= j < |c| && c[j] == '\n' ==> j + 1 < |c| && c[j + 1] != '\n'
  }

  lemma NewlineThenLine(line: string)
    requires line != [] && '\n' !in line
    ensures NoBlankWithin("\n" + line)
  {
    var c := "\n" + line;
    forall j | 0 <= j < |c| && c[j] == '\n' ensures j + 1 < |c| && c[j + 1] != '\n' {
      if j == 0 {
        assert c[1] == line[0];
      }
    }
  }

  /** Prepending text that creates no blank line keeps the first blank line
      first, shifted. */
  lemma ShiftFirstBlank(c: string, s: string, i: nat)
    requires FirstAt(s, "\n\n", i)
    requires NoBlankWithin(c)
    ensures FirstAt(c + s, "\n\n", |c| + i)
  {
    var t := c + s;
    assert t[|c| + i..|c| + i + 2] == s[i..i + 2];
    forall j: nat | j < |c| + i ensures !OccursAt(t, "\n\n", j) {
      if j >= |c| {
        if j + 2 <= |t| {
          assert t[j..j + 2] == s[j - |c|..j - |c| + 2];
        }
        assert !OccursAt(s, "\n\n", j - |c|);
      } else {
        assert t[j] == c[j];
        if j + 2 <= |t| {
          assert t[j..j + 2][0] == t[j] && t[j..j + 2][1] == t[j + 1];
          if c[j] == '\n' {
            assert t[j + 1] == c[j + 1];
          }
        }
      }
    }
  }

  lemma GlueNoBlank(c: string, d: string)
    requires NoBlankWithin(c) && NoBlankWithin(d)
    ensures NoBlankWithin(c + d)
  {
    var t := c + d;
    forall j | 0 <= j < |t| && t[j] == '\n' ensures j + 1 < |t| && t[j + 1] != '\n' {
      if j < |c| {
        assert c[j] == '\n';
        assert t[j + 1] == c[j + 1];
      } else {
        assert d[j - |c|] == '\n';
        assert t[j + 1] == d[j - |c| + 1];
      }
    }
  }

  /** The header lines of a frame, each with the newline before it. */
  function HeaderText(hs: seq<(string, string)>): (r: string)
    requires AllClean(hs)
    ensures NoBlankWithin(r)
  {
    if hs == [] then ""
    else
      LineTrimmed(hs[0]);
      NewlineThenLine(HeaderLine(hs[0]));
      var r := ("\n" + HeaderLine(hs[0])) + HeaderText(hs[1..]);
      GlueNoBlank("\n" + HeaderLine(hs[0]), HeaderText(hs[1..]));
      r
  }

  lemma {:induction false} TailShape(hs: seq<(string, string)>, body: string)
    requires AllClean(hs)
    ensures "\n" + FrameTail(hs, body) == HeaderText(hs) + ("\n\n" + body)
  {
    if hs != [] {
      var line := HeaderLine(hs[0]);
      var more := FrameTail(hs[1..], body);
      TailShape(hs[1..], body);
      calc {
        "\n" + FrameTail(hs, body);
        "\n" + ((line + "\n") + more);
        { AppendAssoc(line, "\n", more); }
        "\n" + (line + ("\n" + more));
        { AppendAssoc("\n", line, "\n" + more); }
        ("\n" + line) + ("\n" + more);
        ("\n" + line) + (HeaderText(hs[1..]) + ("\n\n" + body));
        { AppendAssoc("\n" + line, HeaderText(hs[1..]), "\n\n" + body); }
        HeaderText(hs) + ("\n\n" + body);
      }
    }
  }

  /** In the text after the command, the first blank line comes right after
      the headers, and the body follows it. */
  lemma FirstBlankOfTail(hs: seq<(string, string)>, body: string)
    requires AllClean(hs)
    ensures FirstAt("\n" + FrameTail(hs, body), "\n\n", |HeaderText(hs)|)
    ensures ("\n" + FrameTail(hs, body))[|HeaderText(hs)| + 2..] == body
  {
    var g := HeaderText(hs);
    var rest := "\n\n" + body;
    TailShape(hs, body);
    assert rest[0..2] == "\n\n";
    ShiftFirstBlank(g, rest, 0);
    DropAfterPrefix(g, rest, 2);
  }

  /** The lines of a well-formed frame, before `split` drops the empty ones
      at the end. */
  lemma FormattedPieces(command: string, hs: seq<(string, string)>, body: string)
    requires '\n' !in command
    requires AllClean(hs)
    ensures '\n' in FormatFrame(command, hs, body)
    ensures SplitAll(FormatFrame(command, hs, body), '\n')
         == [command] + (HeaderLines(hs) + ([""] + SplitAll(body, '\n')))
  {
    var m := FormatFrame(command, hs, body);
    SplitFrameTail(hs, body);
    SplitAllPrefix(command, FrameTail(hs, body), '\n');
    assert m[|command|] == '\n';
  }

  /** A well-formed frame keeps its first line when `split` drops the empty
      lines at the end, and the lines after it are a prefix of the rest. */
  lemma FormattedLines(command: string, hs: seq<(string, string)>, body: string)
    requires command != [] && '\n' !in command
    requires AllClean(hs)
    ensures var lines := SplitLines(FormatFrame(command, hs, body));
      var after := HeaderLines(hs) + ([""] + SplitAll(body, '\n'));
      && lines != [] && lines[0] == command
      && |lines| - 1 <= |after| && lines[1..] == after[..|lines| - 1]
      && forall k :: |lines| - 1 <= k < |after| ==> after[k] == ""
  {
    var m := FormatFrame(command, hs, body);
    var after := HeaderLines(hs) + ([""] + SplitAll(body, '\n'));
    FormattedPieces(command, hs, body);
    var all := SplitAll(m, '\n');
    ConsTail(command, after);
    var lines := SplitLines(m);
    assert lines == DropTrailingEmpty(all);
    forall k | |lines| - 1 <= k < |after| ensures after[k] == "" {
      assert all[k + 1] == after[k];
    }
  }

  /** Reading back a well-formed frame: its command, ... */
  lemma ParseFormattedCommand(command: string, hs: seq<(string, string)>, body: string)
    requires command != [] && '\n' !in command
    requires AllClean(hs)
    ensures CommandLine(FormatFrame(command, hs, body)) == Some(Trim(command))
  {
    FormattedLines(command, hs, body);
  }

  /** ... the headers, later duplicates winning, ... */
  lemma ParseFormattedHeaders(command: string, hs: seq<(string, string)>, body: string)
    requires command != [] && '\n' !in command
    requires AllClean(hs)
    ensures ParseHeaders(FormatFrame(command, hs, body)) == Collect(hs)
  {
    var lines := SplitLines(FormatFrame(command, hs, body));
    var after := HeaderLines(hs) + ([""] + SplitAll(body, '\n'));
    FormattedLines(command, hs, body);
    var n := |lines| - 1;
    forall k | n <= k < |after| ensures Trim(after[k]) == "" {
      assert after[k] == "";
    }
    UntilBlankPrefix(after, n);
    UntilBlankHeaders(hs, SplitAll(body, '\n'));
    PairsOfHeaders(hs);
  }

  /** ... and its body. */
  lemma ParseFormattedBody(command: string, hs: seq<(string, string)>, body: string)
    requires '\n' !in command
    requires AllClean(hs)
    ensures ExtractBody(FormatFrame(command, hs, body)) == body
  {
    FormattedBlank(command, hs, body);
  }

  /** The first blank line of a formatted frame is the one after the headers. */
  lemma FormattedBlank(command: string, hs: seq<(string, string)>, body: string)
    requires '\n' !in command
    requires AllClean(hs)
    ensures var i := |command| + |HeaderText(hs)|;
      FirstAt(FormatFrame(command, hs, body), "\n\n", i) && FormatFrame(command, hs, body)[i + 2..] == body
  {
    var tail := FrameTail(hs, body);
    var n := |HeaderText(hs)|;
    FirstBlankOfTail(hs, body);
    NoBlankCommand(command);
    ShiftFirstBlank(command, "\n" + tail, n);
    AppendAssoc(command, "\n", tail);
    DropAfterPrefix(command, "\n" + tail, n + 2);
  }

  lemma NoBlankCommand(command: string)
    requires '\n' !in command
    ensures NoBlankWithin(command)
  {
  }
}
