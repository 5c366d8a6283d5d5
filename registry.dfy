/**
 * The `clients` list: (peer address, writer) pairs, appended on accept and
 * removed with Python's `list.remove`, which drops the first equal entry.
 */
module Registry {

  /** A peer address as `get_extra_info("peername")` reports it. */
  datatype Peer = Peer(host: string, port: int)

  /** The identity of one `StreamWriter` object. */
  type WriterId = nat

  /** One registry entry, the pair `(addr, writer)`. */
  datatype Conn = Conn(addr: Peer, writer: WriterId)

  predicate NoDup<T(==)>(s: seq<T>)
  {
    forall i, j :: 0 <= i < j < |s| ==> s[i] != s[j]
  }

  /** `list.remove(x)` behind an `x in list` guard: the first entry equal to `x` goes, if there is one. */
  function RemoveFirst<T(==)>(s: seq<T>, x: T): (r: seq<T>)
    ensures x !in s ==> r == s
    ensures x in s ==> |r| == |s| - 1
  {
    if s == [] then []
    else if s[0] == x then s[1..]
    else [s[0]] + RemoveFirst(s[1..], x)
  }

  /** Exactly one copy of `x` goes, if there is one; the count of every other entry is untouched. */
  lemma {:induction false} RemoveFirstMultiset<T>(s: seq<T>, x: T)
    ensures multiset(RemoveFirst(s, x)) == multiset(s) - multiset{x}
  {
    if s != [] {
      assert s == [s[0]] + s[1..];
      if s[0] != x {
        RemoveFirstMultiset(s[1..], x);
      }
    }
  }

  /** Removal is a splice at the first occurrence: every other entry stays, in order. */
  lemma {:induction false} RemoveFirstAt<T>(s: seq<T>, x: T, k: nat)
    requires k < |s| && s[k] == x && x !in s[..k]
    ensures RemoveFirst(s, x) == s[..k] + s[k + 1..]
  {
    if k > 0 {
      assert s[0] in s[..k];
      assert s[1..][..k - 1] == s[..k][1..];
      RemoveFirstAt(s[1..], x, k - 1);
      assert s[1..][k..] == s[k + 1..];
    }
  }

  /** Removing from a list without duplicates keeps it without duplicates, and removes every copy. */
  lemma RemoveFirstNoDup<T>(s: seq<T>, x: T)
    requires NoDup(s)
    ensures NoDup(RemoveFirst(s, x))
    ensures x !in RemoveFirst(s, x)
  {
    if x in s {
      var k :| 0 <= k < |s| && s[k] == x;
      RemoveFirstAt(s, x, k);
    }
  }

  /** The guarded removal is idempotent on a registry without duplicates. */
  lemma RemoveFirstIdempotent<T>(s: seq<T>, x: T)
    requires NoDup(s)
    ensures RemoveFirst(RemoveFirst(s, x), x) == RemoveFirst(s, x)
  {
    RemoveFirstNoDup(s, x);
  }

  /** Two removals give the same registry whichever runs first. */
  lemma {:induction false} RemoveFirstCommutes<T>(s: seq<T>, x: T, y: T)
    ensures RemoveFirst(RemoveFirst(s, x), y) == RemoveFirst(RemoveFirst(s, y), x)
  {
    if s != [] && s[0] != x && s[0] != y {
      RemoveFirstCommutes(s[1..], x, y);
      assert ([s[0]] + RemoveFirst(s[1..], x))[1..] == RemoveFirst(s[1..], x);
      assert ([s[0]] + RemoveFirst(s[1..], y))[1..] == RemoveFirst(s[1..], y);
    }
  }

  /** The guarded removals of `xs`, one after another. */
  function RemoveAll<T(==)>(s: seq<T>, xs: seq<T>): (r: seq<T>)
    ensures |s| - |xs| <= |r| <= |s|
    decreases xs
  {
    if xs == [] then s
    else
      RemoveAll(RemoveFirst(s, xs[0]), xs[1..])
  }

  /** The registry after the removals of `xs` holds what it held minus one copy per removal. */
  lemma {:induction false} RemoveAllMultiset<T>(s: seq<T>, xs: seq<T>)
    ensures multiset(RemoveAll(s, xs)) == multiset(s) - multiset(xs)
    decreases xs
  {
    if xs != [] {
      assert xs == [xs[0]] + xs[1..];
      RemoveFirstMultiset(s, xs[0]);
      RemoveAllMultiset(RemoveFirst(s, xs[0]), xs[1..]);
    }
  }

  lemma {:induction false} RemoveAllAppend<T>(s: seq<T>, xs: seq<T>, ys: seq<T>)
    ensures RemoveAll(s, xs + ys) == RemoveAll(RemoveAll(s, xs), ys)
    decreases xs
  {
    if xs == [] {
      assert xs + ys == ys;
    } else {
      assert (xs + ys)[0] == xs[0];
      assert (xs + ys)[1..] == xs[1..] + ys;
      RemoveAllAppend(RemoveFirst(s, xs[0]), xs[1..], ys);
    }
  }

  /** Removing every entry of a registry, in its own order, empties it. */
  lemma {:induction false} RemoveAllSelf<T>(s: seq<T>)
    ensures RemoveAll(s, s) == []
  {
    if s != [] {
      RemoveAllSelf(s[1..]);
    }
  }

  lemma TakeSnoc<T>(s: seq<T>, i: nat)
    requires i < |s|
    ensures s[..i + 1] == s[..i] + [s[i]]
  {
  }

  lemma TakeAll<T>(s: seq<T>)
    ensures s[..|s|] == s
  {
  }

  function Flatten<T>(ss: seq<seq<T>>): (r: seq<T>)
  {
    if ss == [] then [] else ss[0] + Flatten(ss[1..])
  }

  lemma {:induction false} FlattenSnoc<T>(ss: seq<seq<T>>, s: seq<T>)
    ensures Flatten(ss + [s]) == Flatten(ss) + s
  {
    if ss != [] {
      assert (ss + [s])[1..] == ss[1..] + [s];
      FlattenSnoc(ss[1..], s);
    }
  }

  /** The writers of a list of entries. */
  function Writers(cs: seq<Conn>): set<WriterId>
  {
    set c | c in cs :: c.writer
  }

  lemma WritersAppend(a: seq<Conn>, b: seq<Conn>)
    ensures Writers(a + b) == Writers(a) + Writers(b)
  {
  }

  lemma WritersSingleton(c: Conn)
    ensures Writers([c]) == {c.writer}
  {
    assert forall d :: d in [c] <==> d == c;
  }

  /** One single-entry list per entry: the schedule in which each closed connection's own handler leaves. */
  function Singletons<T>(s: seq<T>): (ss: seq<seq<T>>)
    ensures |ss| == |s|
    ensures forall i :: 0 <= i < |s| ==> ss[i] == [s[i]]
  {
    seq(|s|, i requires 0 <= i < |s| => [s[i]])
  }

  lemma {:induction false} FlattenSingletons<T>(s: seq<T>)
    ensures Flatten(Singletons(s)) == s
  {
    if s != [] {
      assert Singletons(s)[1..] == Singletons(s[1..]);
      FlattenSingletons(s[1..]);
    }
  }

  /**
   * When every swept connection's handler leaves after its writer is closed,
   * the registry is empty at the end of the sweep.
   */
  lemma DrainingSweepEmpties<T>(s: seq<T>)
    ensures RemoveAll(s, Flatten(Singletons(s))) == []
  {
    FlattenSingletons(s);
    RemoveAllSelf(s);
  }
}
