/**
 * String helpers used by both the broker and the client: substring search,
 * literal first-occurrence replacement, splitting on one character, and the
 * decimal rendering of non-negative integers.
 */
module Text {
  import opened Wrappers

  /** `pat` occurs in `s` starting at index `i`. */
  predicate OccursAt(s: string, pat: string, i: nat) {
    i + |pat| <= |s| && s[i..i + |pat|] == pat
  }

  /** The first index at or after `from` where `pat` occurs in `s`
      (Java's `String.indexOf`, C++'s `std::string::find`). */
  function IndexOfFrom(s: string, pat: string, from: nat): (r: Option<nat>)
    decreases |s| - from
    ensures r.Some? ==> from <= r.value && OccursAt(s, pat, r.value)
    ensures r.Some? ==> forall j: nat :: from <= j < r.value ==> !OccursAt(s, pat, j)
    ensures r.None? ==> forall j: nat :: from <= j ==> !OccursAt(s, pat, j)
  {
    if from + |pat| > |s| then None
    else if OccursAt(s, pat, from) then Some(from)
    else IndexOfFrom(s, pat, from + 1)
  }

  function IndexOf(s: string, pat: string): Option<nat> {
    IndexOfFrom(s, pat, 0)
  }

  /** Replaces the first occurrence of `pat` by `rep`, literally. */
  function ReplaceFirst(s: string, pat: string, rep: string): (r: string)
    ensures (forall j: nat :: !OccursAt(s, pat, j)) ==> r == s
    ensures forall i: nat ::
              OccursAt(s, pat, i) && (forall j: nat :: j < i ==> !OccursAt(s, pat, j))
              ==> r == s[..i] + rep + s[i + |pat|..]
  {
    match IndexOf(s, pat)
    case None => s
    case Some(i) => s[..i] + rep + s[i + |pat|..]
  }

  lemma ReplaceAt(s: string, pat: string, rep: string, i: nat)
    requires OccursAt(s, pat, i)
    requires forall j: nat :: j < i ==> !OccursAt(s, pat, j)
    ensures ReplaceFirst(s, pat, rep) == s[..i] + rep + s[i + |pat|..]
  {
  }

  /** Every piece between occurrences of `d`, including empty ones:
      a string with k copies of `d` has k + 1 pieces. */
  function SplitAll(s: string, d: char): (r: seq<string>)
    ensures |r| >= 1
    ensures forall k :: 0 <= k < |r| ==> d !in r[k]
  {
    if s == [] then [""]
    else
      var rest := SplitAll(s[1..], d);
      if s[0] == d then [""] + rest
      else [[s[0]] + rest[0]] + rest[1..]
  }

  /** Every piece is empty exactly when every character is the delimiter. */
  lemma {:induction false} AllEmptyPieces(s: string, d: char)
    ensures (forall k :: 0 <= k < |SplitAll(s, d)| ==> SplitAll(s, d)[k] == "")
            <==> forall k :: 0 <= k < |s| ==> s[k] == d
  {
    if s != [] {
      var rest := SplitAll(s[1..], d);
      AllEmptyPieces(s[1..], d);
      if s[0] == d {
        var p := SplitAll(s, d);
        assert p == [""] + rest;
        if forall k :: 0 <= k < |p| ==> p[k] == "" {
          forall k | 0 <= k < |rest| ensures rest[k] == "" {
            assert p[k + 1] == rest[k];
          }
          forall k | 0 <= k < |s| ensures s[k] == d {
            if k > 0 {
              assert s[k] == s[1..][k - 1];
            }
          }
        }
        if forall k :: 0 <= k < |s| ==> s[k] == d {
          forall k | 0 <= k < |s[1..]| ensures s[1..][k] == d {
            assert s[1..][k] == s[k + 1];
          }
          forall k | 0 <= k < |p| ensures p[k] == "" {
            if k > 0 {
              assert p[k] == rest[k - 1];
            }
          }
        }
      } else {
        assert SplitAll(s, d)[0] != "";
      }
    }
  }

  /** The pieces glued back together with `d` between neighbours. */
  function Join(ts: seq<string>, d: char): string {
    if |ts| == 0 then ""
    else if |ts| == 1 then ts[0]
    else ts[0] + [d] + Join(ts[1..], d)
  }

  lemma {:induction false} JoinSplitAll(s: string, d: char)
    ensures Join(SplitAll(s, d), d) == s
  {
    if s != [] {
      var rest := SplitAll(s[1..], d);
      JoinSplitAll(s[1..], d);
      if s[0] == d {
        assert SplitAll(s, d) == [""] + rest;
        assert Join([""] + rest, d) == "" + [d] + Join(rest, d) by {
          assert ([""] + rest)[1..] == rest;
        }
        assert s == [s[0]] + s[1..];
      } else {
        JoinConsFirst(s[0], rest, d);
        assert s == [s[0]] + s[1..];
      }
    }
  }

  /** Prepending a character to the first piece prepends it to the join. */
  lemma JoinConsFirst(c: char, ts: seq<string>, d: char)
    requires |ts| >= 1
    ensures Join([[c] + ts[0]] + ts[1..], d) == [c] + Join(ts, d)
  {
    var us := [[c] + ts[0]] + ts[1..];
    assert us[1..] == ts[1..];
  }

  /** Splitting a join of pieces free of `d` gives the pieces back. */
  lemma {:induction false} SplitAllJoin(ts: seq<string>, d: char)
    requires |ts| >= 1
    requires forall k :: 0 <= k < |ts| ==> d !in ts[k]
    ensures SplitAll(Join(ts, d), d) == ts
  {
    if |ts| == 1 {
      SplitAllFree(ts[0], d);
    } else {
      SplitAllJoin(ts[1..], d);
      SplitAllPrefix(ts[0], Join(ts[1..], d), d);
      HeadTail(ts);
    }
  }

  /** A piece free of `d` splits to itself. */
  lemma {:induction false} SplitAllFree(s: string, d: char)
    requires d !in s
    ensures SplitAll(s, d) == [s]
  {
    if s != [] {
      SplitAllFree(s[1..], d);
      HeadTail(s);
    }
  }

  /** Splitting `a + d + b` with `a` free of `d`. */
  lemma {:induction false} SplitAllPrefix(a: string, b: string, d: char)
    requires d !in a
    ensures SplitAll(a + [d] + b, d) == [a] + SplitAll(b, d)
  {
    if a == [] {
      assert a + [d] + b == [d] + b;
      assert ([d] + b)[1..] == b;
    } else {
      var s := a + [d] + b;
      assert s[0] == a[0];
      assert s[1..] == a[1..] + [d] + b;
      SplitAllPrefix(a[1..], b, d);
      HeadTail(a);
    }
  }

  /** A delimiter at the end opens one more, empty, piece. */
  lemma {:induction false} SplitAllSnoc(s: string, d: char)
    ensures SplitAll(s + [d], d) == SplitAll(s, d) + [""]
  {
    if s != [] {
      SplitAllSnoc(s[1..], d);
      assert (s + [d])[1..] == s[1..] + [d];
    }
  }

  /** Concatenation regroups freely; stated once so that sequences of
      strings need not be compared element by element. */
  lemma AppendAssoc<T>(x: seq<T>, y: seq<T>, z: seq<T>)
    ensures x + (y + z) == (x + y) + z
  {
  }

  /** Prepending one element and then dropping it, for sequences of
      any element type (including strings). */
  lemma ConsSlice<T>(x: T, a: seq<T>, b: seq<T>)
    ensures ([x] + a) + b == [x] + (a + b)
    ensures (([x] + a) + b)[0] == x
    ensures (([x] + a) + b)[1..] == a + b
  {
  }

  lemma HeadTail<T>(s: seq<T>)
    requires s != []
    ensures [s[0]] + s[1..] == s
  {
  }

  lemma DropLastAppend<T>(x: seq<T>, y: seq<T>)
    requires y != []
    ensures (x + y)[|x + y| - 1] == y[|y| - 1]
    ensures (x + y)[..|x + y| - 1] == x + y[..|y| - 1]
  {
  }

  lemma ConsTail<T>(x: T, y: seq<T>)
    ensures ([x] + y)[0] == x && ([x] + y)[1..] == y
  {
  }

  lemma DropAfterPrefix<T>(x: seq<T>, y: seq<T>, k: nat)
    requires k <= |y|
    ensures (x + y)[|x| + k..] == y[k..]
  {
  }

  /** Decimal digits. */
  predicate IsDigit(c: char) {
    '0' <= c <= '9'
  }

  predicate AllDigits(s: string) {
    forall k :: 0 <= k < |s| ==> IsDigit(s[k])
  }

  function DigitValue(c: char): nat
    requires IsDigit(c)
  {
    (c as int) - ('0' as int)
  }

  /** The number a digit string denotes in base ten. */
  function DigitsValue(s: string): nat
    requires AllDigits(s)
  {
    if s == [] then 0 else DigitsValue(s[..|s| - 1]) * 10 + DigitValue(s[|s| - 1])
  }

  function DigitChar(d: nat): (c: char)
    requires d < 10
    ensures IsDigit(c) && DigitValue(c) == d
  {
    (('0' as int) + d) as char
  }

  /** Decimal rendering of a non-negative integer, without leading zeros
      (Java's string concatenation of a `long`, C++'s `std::to_string`). */
  function NatToString(n: nat): (r: string)
    decreases n
    ensures |r| >= 1 && AllDigits(r)
    ensures DigitsValue(r) == n
    ensures r[0] == '0' ==> n == 0
  {
    if n < 10 then [DigitChar(n)]
    else
      var r := NatToString(n / 10) + [DigitChar(n % 10)];
      assert r[..|r| - 1] == NatToString(n / 10);
      r
  }
}
