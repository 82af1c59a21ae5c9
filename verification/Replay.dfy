/** Tables rebuilt from a list of records, and why replaying a log twice does no harm. */
module Replay {
  import opened Basics

  type Table<V> = map<Bytes, V>

  datatype Rec<V> = Put(key: Bytes, value: V) | Del(key: Bytes)

  function Apply<V>(t: Table<V>, r: Rec<V>): Table<V>
  {
    match r
    case Put(k, v) => t[k := v]
    case Del(k) => t - {k}
  }

  function ReplayAll<V>(t: Table<V>, rs: seq<Rec<V>>): Table<V>
  {
    if rs == [] then t else Apply(ReplayAll(t, rs[..|rs| - 1]), rs[|rs| - 1])
  }

  ghost predicate Mentions<V>(rs: seq<Rec<V>>, k: Bytes)
  {
    exists i :: 0 <= i < |rs| && rs[i].key == k
  }

  ghost predicate SameAt<V>(t: Table<V>, u: Table<V>, k: Bytes)
  {
    (k in t <==> k in u) && (k in t && k in u ==> t[k] == u[k])
  }

  lemma SameEverywhere<V>(t: Table<V>, u: Table<V>)
    requires forall k :: SameAt(t, u, k)
    ensures t == u
  {
    forall k
      ensures k in t <==> k in u
      ensures k in t ==> t[k] == u[k]
    {
      assert SameAt(t, u, k);
    }
  }

  lemma {:induction false} ReplayConcat<V>(t: Table<V>, a: seq<Rec<V>>, b: seq<Rec<V>>)
    ensures ReplayAll(t, a + b) == ReplayAll(ReplayAll(t, a), b)
  {
    if b == [] {
      assert a + b == a;
    } else {
      ReplayConcat(t, a, b[..|b| - 1]);
      assert (a + b)[..|a + b| - 1] == a + b[..|b| - 1];
    }
  }

  /** A key the records do not mention keeps its entry; a key they do mention gets an entry that
      does not depend on the table the replay started from. */
  lemma {:induction false} ReplayAt<V>(t: Table<V>, u: Table<V>, rs: seq<Rec<V>>, k: Bytes)
    ensures !Mentions(rs, k) ==> SameAt(ReplayAll(t, rs), t, k)
    ensures Mentions(rs, k) ==> SameAt(ReplayAll(t, rs), ReplayAll(u, rs), k)
  {
    if rs == [] {
    } else {
      var front, last := rs[..|rs| - 1], rs[|rs| - 1];
      ReplayAt(t, u, front, k);
      if Mentions(front, k) {
        var i :| 0 <= i < |front| && front[i].key == k;
        assert rs[i].key == k;
      }
      if Mentions(rs, k) && last.key != k {
        var i :| 0 <= i < |rs| && rs[i].key == k;
        assert front[i].key == k;
      }
      if !Mentions(rs, k) {
        assert rs[|rs| - 1].key != k;
      }
    }
  }

  lemma {:induction false} KeysOfReplay<V>(t: Table<V>, rs: seq<Rec<V>>)
    ensures forall k :: k in ReplayAll(t, rs) ==> k in t || Mentions(rs, k)
  {
    forall k | k in ReplayAll(t, rs) && !Mentions(rs, k)
      ensures k in t
    {
      ReplayAt(t, t, rs, k);
    }
  }

  /** A state that already includes some prefix of the log absorbs the replay of the whole log. */
  lemma ReplayAbsorbsPrefix<V>(t: Table<V>, log: seq<Rec<V>>, n: nat)
    requires n <= |log|
    ensures ReplayAll(ReplayAll(t, log[..n]), log) == ReplayAll(t, log)
  {
    var mid := ReplayAll(t, log[..n]);
    forall k
      ensures SameAt(ReplayAll(mid, log), ReplayAll(t, log), k)
    {
      ReplayAt(t, mid, log, k);
      ReplayAt(mid, t, log, k);
      ReplayAt(t, t, log[..n], k);
      if Mentions(log[..n], k) {
        var i :| 0 <= i < n && log[..n][i].key == k;
        assert log[i].key == k;
      }
    }
    SameEverywhere(ReplayAll(mid, log), ReplayAll(t, log));
  }

  /** In particular replaying the log over a snapshot that already contains it changes nothing. */
  lemma ReplayIdempotent<V>(t: Table<V>, log: seq<Rec<V>>)
    ensures ReplayAll(ReplayAll(t, log), log) == ReplayAll(t, log)
  {
    assert log[..|log|] == log;
    ReplayAbsorbsPrefix(t, log, |log|);
  }

  ghost predicate Distinct(keys: seq<Bytes>)
  {
    forall i, j :: 0 <= i < j < |keys| ==> keys[i] != keys[j]
  }

  /** The records a snapshot of t holds when its keys are visited in the given order. */
  function Puts<V>(t: Table<V>, keys: seq<Bytes>): (rs: seq<Rec<V>>)
    requires forall k :: k in keys ==> k in t
    ensures |rs| == |keys|
  {
    seq(|keys|, i requires 0 <= i < |keys| => Put(keys[i], t[keys[i]]))
  }

  lemma {:induction false} ReplayPuts<V>(t: Table<V>, keys: seq<Bytes>)
    requires forall k :: k in keys ==> k in t
    ensures ReplayAll(map[], Puts(t, keys)) == map k | k in t && k in keys :: t[k]
  {
    if keys == [] {
    } else {
      var front := keys[..|keys| - 1];
      ReplayPuts(t, front);
      assert Puts(t, keys)[..|keys| - 1] == Puts(t, front);
      assert keys == front + [keys[|keys| - 1]];
    }
  }

  /** Whatever order the hash map is iterated in, the snapshot rebuilds the table. */
  lemma SnapshotOrderFree<V>(t: Table<V>, keys: seq<Bytes>)
    requires forall k :: k in keys <==> k in t
    ensures ReplayAll(map[], Puts(t, keys)) == t
  {
    ReplayPuts(t, keys);
  }
}
