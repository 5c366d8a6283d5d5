/**
 * The termination test of the TCP echo loop: a chunk ends the session when,
 * with surrounding ASCII whitespace stripped and ASCII letters lowered, it is
 * `quit` or `exit` (Python's `data.strip().lower() in (b"quit", b"exit")`).
 */
module Keyword {
  import opened Bytes

  /** The bytes `bytes.strip()` removes when given no argument: space, \t, \n, \r, \x0b, \x0c. */
  predicate IsSpace(b: Byte): (r: bool)
    ensures r <==> 9 <= b <= 13 || b == 32
  {
    b == 32 || b == 9 || b == 10 || b == 13 || b == 11 || b == 12
  }

  predicate AllSpace(s: Bytes)
  {
    forall i :: 0 <= i < |s| ==> IsSpace(s[i])
  }

  /** `bytes.lstrip()`: drops the longest all-whitespace prefix. */
  function TrimLeft(s: Bytes): (r: Bytes)
    ensures |r| <= |s|
    ensures r != [] ==> !IsSpace(r[0])
  {
    if s != [] && IsSpace(s[0]) then TrimLeft(s[1..]) else s
  }

  /** `bytes.rstrip()`: drops the longest all-whitespace suffix. */
  function TrimRight(s: Bytes): (r: Bytes)
    ensures |r| <= |s|
    ensures r != [] ==> !IsSpace(r[|r| - 1])
  {
    if s != [] && IsSpace(s[|s| - 1]) then TrimRight(s[..|s| - 1]) else s
  }

  /** `bytes.strip()` with no argument. */
  function Strip(s: Bytes): (r: Bytes)
    ensures |r| <= |s|
    ensures r != [] ==> !IsSpace(r[|r| - 1])
  {
    TrimRight(TrimLeft(s))
  }

  /** `bytes.lower()` on one byte: only `A`..`Z` change. */
  function LowerByte(b: Byte): (r: Byte)
    ensures !(65 <= r <= 90)
    ensures !(65 <= b <= 90) ==> r == b
    ensures 97 <= r <= 122 <==> 65 <= b <= 90 || 97 <= b <= 122
  {
    if 65 <= b <= 90 then b + 32 else b
  }

  /** `bytes.lower()`. */
  function Lower(s: Bytes): (r: Bytes)
    ensures |r| == |s|
  {
    seq(|s|, i requires 0 <= i < |s| => LowerByte(s[i]))
  }

  const QuitWord: Bytes := [113, 117, 105, 116]  // b"quit"
  const ExitWord: Bytes := [101, 120, 105, 116]  // b"exit"

  predicate IsKeyword(w: Bytes)
  {
    w == QuitWord || w == ExitWord
  }

  /** The test at the head of the echo loop. */
  predicate IsTerminator(data: Bytes): (r: bool)
  {
    IsKeyword(Lower(Strip(data)))
  }

  /**
   * Independent reading of the same test: the chunk is some whitespace, then a
   * word that lowers to a keyword, then some whitespace.
   */
  predicate PaddedKeyword(data: Bytes)
  {
    exists i, j :: 0 <= i <= j <= |data| && AllSpace(data[..i]) && AllSpace(data[j..])
                   && IsKeyword(Lower(data[i..j]))
  }

  /** What `lstrip` leaves is a suffix that starts with a non-whitespace byte; all it dropped was whitespace. */
  lemma {:induction false} TrimLeftSpec(s: Bytes)
    ensures |TrimLeft(s)| <= |s| && TrimLeft(s) == s[|s| - |TrimLeft(s)|..]
    ensures AllSpace(s[..|s| - |TrimLeft(s)|])
    ensures TrimLeft(s) != [] ==> !IsSpace(TrimLeft(s)[0])
  {
    if s != [] && IsSpace(s[0]) {
      TrimLeftSpec(s[1..]);
      var n := |s| - |TrimLeft(s)|;
      assert forall k :: 1 <= k < n ==> s[..n][k] == s[1..][..n - 1][k - 1];
    }
  }

  /** What `rstrip` leaves is a prefix that ends with a non-whitespace byte; all it dropped was whitespace. */
  lemma {:induction false} TrimRightSpec(s: Bytes)
    ensures |TrimRight(s)| <= |s| && TrimRight(s) == s[..|TrimRight(s)|]
    ensures AllSpace(s[|TrimRight(s)|..])
    ensures TrimRight(s) != [] ==> !IsSpace(TrimRight(s)[|TrimRight(s)| - 1])
  {
    if s != [] && IsSpace(s[|s| - 1]) {
      TrimRightSpec(s[..|s| - 1]);
      var n := |TrimRight(s)|;
      assert forall k :: n <= k < |s| - 1 ==> s[k] == s[..|s| - 1][k];
    }
  }

  /** Left trimming stops at the first byte that is not whitespace. */
  lemma {:induction false} TrimLeftStops(s: Bytes, i: nat)
    requires i <= |s|
    requires AllSpace(s[..i])
    requires i < |s| ==> !IsSpace(s[i])
    ensures TrimLeft(s) == s[i..]
  {
    if i > 0 {
      assert s[..i][0] == s[0];
      assert s[1..][..i - 1] == s[..i][1..];
      TrimLeftStops(s[1..], i - 1);
    }
  }

  /** Right trimming stops at the last byte that is not whitespace. */
  lemma {:induction false} TrimRightStops(s: Bytes, j: nat)
    requires j <= |s|
    requires AllSpace(s[j..])
    requires 0 < j ==> !IsSpace(s[j - 1])
    ensures TrimRight(s) == s[..j]
  {
    if j < |s| {
      assert s[j..][|s| - 1 - j] == s[|s| - 1];
      assert s[..|s| - 1][j..] == s[j..|s| - 1];
      TrimRightStops(s[..|s| - 1], j);
    }
  }

  /** `Strip` is the unique core between whitespace padding whose ends are not whitespace. */
  lemma StripUnique(s: Bytes, i: nat, j: nat)
    requires i <= j <= |s|
    requires AllSpace(s[..i]) && AllSpace(s[j..])
    requires i < j ==> !IsSpace(s[i]) && !IsSpace(s[j - 1])
    requires i == j ==> AllSpace(s)
    ensures Strip(s) == s[i..j]
  {
    if i < j {
      TrimLeftStops(s, i);
      assert s[i..][j - i..] == s[j..];
      TrimRightStops(s[i..], j - i);
    } else {
      TrimLeftStops(s, |s|);
    }
  }

  /** A byte whose lowered form is not whitespace was not whitespace. */
  lemma LowerKeepsNonSpace(w: Bytes, k: int)
    requires 0 <= k < |w|
    requires !IsSpace(Lower(w)[k])
    ensures !IsSpace(w[k])
  {
  }

  /** If the keyword test holds, the chunk is a padded keyword at the positions `Strip` found. */
  lemma TerminatorIsPadded(data: Bytes)
    requires IsTerminator(data)
    ensures PaddedKeyword(data)
  {
    var l := TrimLeft(data);
    TrimLeftSpec(data);
    TrimRightSpec(l);
    var i := |data| - |l|;
    var j := i + |Strip(data)|;
    assert data[i..j] == Strip(data);
    assert data[j..] == l[|Strip(data)|..];
  }

  /** A padded keyword passes the keyword test. */
  lemma PaddedIsTerminator(data: Bytes, i: nat, j: nat)
    requires i <= j <= |data|
    requires AllSpace(data[..i]) && AllSpace(data[j..])
    requires IsKeyword(Lower(data[i..j]))
    ensures IsTerminator(data)
  {
    var w := data[i..j];
    assert |w| == 4;
    LowerKeepsNonSpace(w, 0);
    LowerKeepsNonSpace(w, 3);
    StripUnique(data, i, j);
  }

  /** The keyword test holds exactly when the chunk is a padded keyword, in either case. */
  lemma TerminatorMeansPaddedKeyword(data: Bytes)
    ensures IsTerminator(data) <==> PaddedKeyword(data)
  {
    if IsTerminator(data) {
      TerminatorIsPadded(data);
    }
    if PaddedKeyword(data) {
      var i, j :| 0 <= i <= j <= |data| && AllSpace(data[..i]) && AllSpace(data[j..])
                  && IsKeyword(Lower(data[i..j]));
      PaddedIsTerminator(data, i, j);
    }
  }

  /** `"  QUIT\r\n"` ends the session. */
  lemma ShoutedQuitEnds()
    ensures IsTerminator([32, 32, 81, 85, 73, 84, 13, 10])  // b"  QUIT\r\n"
  {
    var a: Bytes := [32, 32, 81, 85, 73, 84, 13, 10];
    assert a[..2] == [32, 32] && a[6..] == [13, 10] && a[2..6] == [81, 85, 73, 84];
    assert Lower(a[2..6]) == QuitWord;
    PaddedIsTerminator(a, 2, 6);
  }

  /** `"Exit"` ends the session. */
  lemma CapitalExitEnds()
    ensures IsTerminator([69, 120, 105, 116])  // b"Exit"
  {
    var a: Bytes := [69, 120, 105, 116];
    assert a[..0] == [] && a[4..] == [] && a[0..4] == a;
    assert Lower(a) == ExitWord;
    PaddedIsTerminator(a, 0, 4);
  }

  /** `"quit"` itself ends the session. */
  lemma PlainQuitEnds()
    ensures IsTerminator(QuitWord)
  {
    var a := QuitWord;
    assert a[..0] == [] && a[4..] == [] && a[0..4] == a;
    assert Lower(a) == QuitWord;
    PaddedIsTerminator(a, 0, 4);
  }

  /** `"ping"` does not end the session. */
  lemma PingDoesNotEnd()
    ensures !IsTerminator([112, 105, 110, 103])  // b"ping"
  {
    var a: Bytes := [112, 105, 110, 103];
    assert Strip(a) == a by {
      assert a[..0] == [] && a[4..] == [] && a[0..4] == a;
      StripUnique(a, 0, 4);
    }
    var w := Lower(a);
    assert w[0] == 112;
    assert w != QuitWord by { assert QuitWord[0] == 113; }
    assert w != ExitWord by { assert ExitWord[0] == 101; }
  }
}
