/**
 * The few PHP built-ins the MailRelay client relies on, stated over Dafny
 * strings: `null`-able values, `empty()` on strings, `explode("\r\n", ...)`
 * with its inverse `implode("\r\n", ...)`, and `trim()` with PHP's default
 * character list.
 */
module Php {

  /** A PHP value that may be `null`. */
  datatype Option<+T> = None | Some(value: T)

  /** `empty($s)` for a string: true for "" and for "0". */
  function IsEmptyString(s: string): (b: bool)
    ensures b <==> |s| == 0 || (|s| == 1 && s[0] == '0')
  {
    s == "" || s == "0"
  }

  /** `empty($v)` for a value that is either a string or `null`. */
  function IsEmptyOrNull(v: Option<string>): (b: bool)
    ensures b <==> v == None || v == Some("") || v == Some("0")
  {
    v.None? || IsEmptyString(v.value)
  }

  // ---------------------------------------------------------------------
  // explode("\r\n", $s) and implode("\r\n", $pieces)
  // ---------------------------------------------------------------------

  /** The separator "\r\n" starts at index i of s. */
  predicate CrlfAt(s: string, i: int) {
    0 <= i && i + 1 < |s| && s[i] == '\r' && s[i + 1] == '\n'
  }

  predicate HasCrlf(s: string) {
    exists i | 0 <= i < |s| :: CrlfAt(s, i)
  }

  /** `explode("\r\n", $s)`: the pieces between occurrences of CRLF, scanning left to right. */
  function Explode(s: string): (pieces: seq<string>)
    ensures |pieces| >= 1
    ensures |pieces[0]| <= |s| && pieces[0] == s[..|pieces[0]|]
    decreases |s|
  {
    if |s| < 2 then [s]
    else if s[0] == '\r' && s[1] == '\n' then [""] + Explode(s[2..])
    else
      var rest := Explode(s[1..]);
      [[s[0]] + rest[0]] + rest[1..]
  }

  /** `implode("\r\n", $pieces)`: the reference inverse of Explode. */
  function Implode(pieces: seq<string>): (s: string)
    requires |pieces| >= 1
    ensures |s| >= |pieces[0]| && s[..|pieces[0]|] == pieces[0]
  {
    if |pieces| == 1 then pieces[0] else pieces[0] + "\r\n" + Implode(pieces[1..])
  }

  lemma {:induction false} ImplodeConsHead(c: char, pieces: seq<string>)
    requires |pieces| >= 1
    ensures Implode([[c] + pieces[0]] + pieces[1..]) == [c] + Implode(pieces)
  {
    var head := [c] + pieces[0];
    var q := [head] + pieces[1..];
    assert q[0] == head;
    if |pieces| > 1 {
      assert q[1..] == pieces[1..];
      var tail := Implode(pieces[1..]);
      assert Implode(q) == head + "\r\n" + tail;
      assert Implode(pieces) == pieces[0] + "\r\n" + tail;
      assert head + "\r\n" + tail == [c] + (pieces[0] + "\r\n" + tail);
    }
  }

  /** Joining the pieces of explode with the separator gives back the input. */
  lemma {:induction false} ImplodeExplode(s: string)
    ensures Implode(Explode(s)) == s
    decreases |s|
  {
    if |s| < 2 {
    } else if s[0] == '\r' && s[1] == '\n' {
      ImplodeExplode(s[2..]);
      assert ([""] + Explode(s[2..]))[1..] == Explode(s[2..]);
      assert s == "\r\n" + s[2..];
    } else {
      ImplodeExplode(s[1..]);
      ImplodeConsHead(s[0], Explode(s[1..]));
      assert s == [s[0]] + s[1..];
    }
  }

  /** No piece of explode contains the separator: the input is split at every CRLF. */
  lemma {:induction false} ExplodePiecesHaveNoCrlf(s: string)
    ensures forall p :: p in Explode(s) ==> !HasCrlf(p)
    decreases |s|
  {
    if |s| < 2 {
      assert !HasCrlf(s) by {
        forall i ensures !CrlfAt(s, i) { }
      }
    } else if s[0] == '\r' && s[1] == '\n' {
      ExplodePiecesHaveNoCrlf(s[2..]);
      assert !HasCrlf("") by {
        forall i ensures !CrlfAt("", i) { }
      }
    } else {
      ExplodePiecesHaveNoCrlf(s[1..]);
      var rest := Explode(s[1..]);
      var head := [s[0]] + rest[0];
      assert !HasCrlf(rest[0]);
      assert !HasCrlf(head) by {
        forall i | 0 < i < |head| ensures !CrlfAt(head, i) {
          assert !CrlfAt(rest[0], i - 1);
        }
        assert |rest[0]| > 0 ==> rest[0][0] == s[1];
      }
      forall p | p in Explode(s) ensures !HasCrlf(p) {
        if p != head {
          assert p in rest[1..];
        }
      }
    }
  }

  /** Exploding "a\r\nb" when a has no CRLF yields a in front of the pieces of b. */
  lemma {:induction false} ExplodeAtFirstCrlf(a: string, b: string)
    requires !HasCrlf(a)
    ensures Explode(a + "\r\n" + b) == [a] + Explode(b)
    decreases |a|
  {
    var s := a + "\r\n" + b;
    if |a| == 0 {
      assert s == "\r\n" + b;
      assert s[2..] == b;
    } else {
      assert !CrlfAt(a, 0);
      assert !(s[0] == '\r' && s[1] == '\n') by {
        if |a| == 1 { assert s[1] == '\r'; } else { assert s[1] == a[1]; }
      }
      var a' := a[1..];
      assert !HasCrlf(a') by {
        forall i | CrlfAt(a', i) ensures false { assert CrlfAt(a, i + 1); }
      }
      ExplodeAtFirstCrlf(a', b);
      assert s[1..] == a' + "\r\n" + b;
      assert [s[0]] + a' == a;
    }
  }

  lemma {:induction false} NoCrlfExplode(a: string)
    requires !HasCrlf(a)
    ensures Explode(a) == [a]
    decreases |a|
  {
    if |a| >= 2 {
      assert !CrlfAt(a, 0);
      var a' := a[1..];
      assert !HasCrlf(a') by {
        forall i | CrlfAt(a', i) ensures false { assert CrlfAt(a, i + 1); }
      }
      NoCrlfExplode(a');
      assert [a[0]] + a' == a;
    }
  }

  /** Explode undoes Implode whenever no piece holds the separator. */
  lemma {:induction false} ExplodeImplode(pieces: seq<string>)
    requires |pieces| >= 1
    requires forall p :: p in pieces ==> !HasCrlf(p)
    ensures Explode(Implode(pieces)) == pieces
    decreases |pieces|
  {
    if |pieces| == 1 {
      NoCrlfExplode(pieces[0]);
    } else {
      assert pieces[0] in pieces;
      ExplodeImplode(pieces[1..]);
      ExplodeAtFirstCrlf(pieces[0], Implode(pieces[1..]));
      assert [pieces[0]] + pieces[1..] == pieces;
    }
  }

  // ---------------------------------------------------------------------
  // trim($s)
  // ---------------------------------------------------------------------

  /** The characters PHP's trim() strips by default: " \t\n\r\0\x0B". */
  predicate IsTrimmed(c: char) {
    c == ' ' || c == '\t' || c == '\n' || c == '\r' || c == '\0' || c == '\U{B}'
  }

  /** Every character of s in [lo, hi) is strippable. */
  predicate TrimmedBetween(s: string, lo: int, hi: int) {
    forall i :: lo <= i < hi && 0 <= i < |s| ==> IsTrimmed(s[i])
  }

  /** What is strippable in a suffix of s is strippable in s, at the shifted positions. */
  lemma TrimmedInSuffix(s: string, a: nat, lo: int, hi: int)
    requires a <= |s| && 0 <= lo && TrimmedBetween(s[a..], lo, hi)
    ensures TrimmedBetween(s, lo + a, hi + a)
  {
    forall i | lo + a <= i < hi + a && 0 <= i < |s| ensures IsTrimmed(s[i]) {
      assert s[i] == s[a..][i - a];
    }
  }

  /** What is strippable in a prefix of s is strippable in s. */
  lemma TrimmedInPrefix(s: string, n: nat, lo: int, hi: int)
    requires n <= |s| && TrimmedBetween(s[..n], lo, hi) && hi <= n
    ensures TrimmedBetween(s, lo, hi)
  {
    forall i | lo <= i < hi && 0 <= i < |s| ensures IsTrimmed(s[i]) {
      assert s[i] == s[..n][i];
    }
  }

  /** Number of strippable characters at the front of s. */
  function LeadingCount(s: string): (n: nat)
    ensures n <= |s| && TrimmedBetween(s, 0, n)
    ensures n < |s| ==> !IsTrimmed(s[n])
  {
    if |s| > 0 && IsTrimmed(s[0]) then
      var m := LeadingCount(s[1..]);
      TrimmedInSuffix(s, 1, 0, m);
      assert m < |s| - 1 ==> s[1 + m] == s[1..][m];
      1 + m
    else 0
  }

  /** Number of strippable characters at the back of s. */
  function TrailingCount(s: string): (n: nat)
    ensures n <= |s| && TrimmedBetween(s, |s| - n, |s|)
    ensures n < |s| ==> !IsTrimmed(s[|s| - n - 1])
  {
    if |s| > 0 && IsTrimmed(s[|s| - 1]) then
      var t := s[..|s| - 1];
      var m := TrailingCount(t);
      TrimmedInPrefix(s, |t|, |t| - m, |t|);
      assert m < |t| ==> s[|t| - m - 1] == t[|t| - m - 1];
      1 + m
    else 0
  }

  /** `trim($s)`: s with its strippable prefix and suffix removed. */
  function Trim(s: string): (r: string)
    ensures |r| + LeadingCount(s) <= |s|
    ensures r == s[LeadingCount(s)..LeadingCount(s) + |r|]
    ensures TrimmedBetween(s, 0, LeadingCount(s)) && TrimmedBetween(s, LeadingCount(s) + |r|, |s|)
    ensures r != [] ==> !IsTrimmed(r[0]) && !IsTrimmed(r[|r| - 1])
  {
    var a := LeadingCount(s);
    var t := s[a..];
    var b := TrailingCount(t);
    TrimmedInSuffix(s, a, |t| - b, |t|);
    var r := t[..|t| - b];
    assert r != [] ==> r[0] == t[0] == s[a] && r[|r| - 1] == t[|t| - b - 1];
    r
  }

  /** A string with nothing strippable at either end is its own trim. */
  lemma TrimUnchanged(s: string)
    requires s != [] && !IsTrimmed(s[0]) && !IsTrimmed(s[|s| - 1])
    ensures Trim(s) == s
  {
    assert LeadingCount(s) == 0;
    assert TrailingCount(s) == 0;
  }
}
