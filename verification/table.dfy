/**
  The statistics table: a two-level map whose outer key is the lower-cased
  first character of a name (the bucket) and whose inner key is the full
  name. Buckets are created the first time one of their names is seen, and
  neither buckets nor names are ever removed.
 */
module Table {
  import opened Wrappers
  import opened Text
  import opened Stats

  type Table = map<char, map<string, NameStats>>

  const EmptyTable: Table := map[]

  /** The bucket a non-empty name is filed under. */
  function Bucket(name: string): char
    requires |name| > 0
  {
    ToLower(name[0])
  }

  /** The entry of `name`, looked up in its own bucket. */
  function Lookup(t: Table, name: string): Option<NameStats> {
    if |name| > 0 && Bucket(name) in t && name in t[Bucket(name)]
    then Some(t[Bucket(name)][name])
    else None
  }

  /** The bucket `k` of `t`, empty when it has not been created. */
  function BucketOf(t: Table, k: char): map<string, NameStats> {
    if k in t then t[k] else map[]
  }

  /** The entry after observing `v` for a name whose entry was `e`. */
  function Observe(e: Option<NameStats>, v: real): NameStats {
    match e
    case None => First(v)
    case Some(s) => Add(s, v)
  }

  /**
    Records one observation `v` of `name`: the name's entry starts at `v`
    or is widened by it, its bucket is created if missing, and no other
    name's entry and no other bucket changes.
   */
  function UpdateStats(t: Table, name: string, v: real): (r: Table)
    requires |name| > 0
    ensures Lookup(r, name) == Some(Observe(Lookup(t, name), v))
  {
    var k := Bucket(name);
    var bucket := BucketOf(t, k);
    var s := if name in bucket then Add(bucket[name], v) else First(v);
    t[k := bucket[name := s]]
  }

  /** Updating one name leaves the entry of every other name as it was. */
  lemma UpdateOthersUnchanged(t: Table, name: string, v: real, other: string)
    requires |name| > 0 && other != name
    ensures Lookup(UpdateStats(t, name, v), other) == Lookup(t, other)
  {
  }

  /**
    Updating only writes the bucket of the name: it creates that bucket if
    missing, adds the name to it, and removes no bucket and no name.
   */
  lemma UpdateWritesOneBucket(t: Table, name: string, v: real)
    requires |name| > 0
    ensures var r := UpdateStats(t, name, v);
      && r.Keys == t.Keys + {Bucket(name)}
      && (forall k :: k in t && k != Bucket(name) ==> r[k] == t[k])
      && r[Bucket(name)].Keys == BucketOf(t, Bucket(name)).Keys + {name}
      && (forall n :: n in BucketOf(t, Bucket(name)) && n != name ==>
            r[Bucket(name)][n] == t[Bucket(name)][n])
  {
  }

  /** A bucket that did not exist is created holding just the new name. */
  lemma UpdateCreatesBucket(t: Table, name: string, v: real)
    requires |name| > 0 && Bucket(name) !in t
    ensures UpdateStats(t, name, v)[Bucket(name)] == map[name := First(v)]
  {
  }

  /**
    The table invariant: every name sits in its own bucket with a valid
    entry, and no bucket is empty.
   */
  ghost predicate WellFormed(t: Table) {
    && (forall k, n :: k in t && n in t[k] ==> |n| > 0 && Bucket(n) == k && Stats.Valid(t[k][n]))
    && (forall k :: k in t ==> |t[k]| > 0)
  }

  lemma EmptyValid()
    ensures WellFormed(EmptyTable)
  {
  }

  /** Updating keeps the table invariant. */
  lemma UpdateValid(t: Table, name: string, v: real)
    requires WellFormed(t) && |name| > 0
    ensures WellFormed(UpdateStats(t, name, v))
  {
    var k, e := Bucket(name), Lookup(t, name);
    assert Stats.Valid(Observe(e, v)) by {
      if e.Some? { AddValid(e.value, v); }
    }
    var nb := BucketOf(t, k)[name := Observe(e, v)];
    assert forall n :: n in nb ==> |n| > 0 && Bucket(n) == k && Stats.Valid(nb[n]);
    ReplaceBucket(t, k, nb);
    UpdateShape(t, name, v);
  }

  /** Putting a non-empty bucket of valid entries filed under `k` in place keeps the invariant. */
  lemma ReplaceBucket(t: Table, k: char, nb: map<string, NameStats>)
    requires WellFormed(t) && |nb| > 0
    requires forall n :: n in nb ==> |n| > 0 && Bucket(n) == k && Stats.Valid(nb[n])
    ensures WellFormed(t[k := nb])
  {
  }

  /** Under the invariant, a table is determined by the lookups of all names. */
  lemma {:induction false} LookupDetermines(t: Table, u: Table)
    requires WellFormed(t) && WellFormed(u)
    requires forall n :: Lookup(t, n) == Lookup(u, n)
    ensures t == u
  {
    forall k | k in t ensures k in u && t[k] == u[k] {
      var n :| n in t[k];
      assert Lookup(t, n).Some?;
      assert k in u;
      forall m | m in t[k] ensures m in u[k] && t[k][m] == u[k][m] {
        assert Lookup(t, m) == Some(t[k][m]);
      }
      forall m | m in u[k] ensures m in t[k] {
        assert Lookup(u, m) == Some(u[k][m]);
      }
    }
    forall k | k in u ensures k in t {
      var n :| n in u[k];
      assert Lookup(u, n).Some?;
    }
  }

  /** The table after an update, written out: the name's bucket with the name's new entry. */
  lemma UpdateShape(t: Table, name: string, v: real)
    requires |name| > 0
    ensures UpdateStats(t, name, v)
         == t[Bucket(name) := BucketOf(t, Bucket(name))[name := Observe(Lookup(t, name), v)]]
  {
  }

  /** Two updates may be applied in either order. */
  lemma UpdateCommutes(t: Table, a: string, v: real, b: string, w: real)
    requires |a| > 0 && |b| > 0
    ensures UpdateStats(UpdateStats(t, a, v), b, w) == UpdateStats(UpdateStats(t, b, w), a, v)
  {
    if a == b {
      CommuteSameName(t, a, v, w);
    } else if Bucket(a) == Bucket(b) {
      CommuteSameBucket(t, a, v, b, w);
    } else {
      CommuteApart(t, a, v, b, w);
    }
  }

  lemma CommuteSameName(t: Table, a: string, v: real, w: real)
    requires |a| > 0
    ensures UpdateStats(UpdateStats(t, a, v), a, w) == UpdateStats(UpdateStats(t, a, w), a, v)
  {
    UpdateTwice(t, a, v, w);
    UpdateTwice(t, a, w, v);
    ObserveCommutes(Lookup(t, a), v, w);
  }

  /** Two updates of one name write that name's entry once, widened by both values. */
  lemma UpdateTwice(t: Table, a: string, v: real, w: real)
    requires |a| > 0
    ensures UpdateStats(UpdateStats(t, a, v), a, w)
         == t[Bucket(a) := BucketOf(t, Bucket(a))[a := Add(Observe(Lookup(t, a), v), w)]]
  {
    var k, ba, ea := Bucket(a), BucketOf(t, Bucket(a)), Observe(Lookup(t, a), v);
    var ta := UpdateStats(t, a, v);
    UpdateShape(t, a, v);
    UpdateShape(ta, a, w);
    assert BucketOf(ta, k) == ba[a := ea];
    assert ba[a := ea][a := Add(ea, w)] == ba[a := Add(ea, w)];
  }

  /** Two observations of one name may be made in either order. */
  lemma ObserveCommutes(e: Option<NameStats>, v: real, w: real)
    ensures Add(Observe(e, v), w) == Add(Observe(e, w), v)
  {
    match e {
      case None => FirstCommutes(v, w);
      case Some(s) => AddCommutes(s, v, w);
    }
  }

  lemma CommuteSameBucket(t: Table, a: string, v: real, b: string, w: real)
    requires |a| > 0 && |b| > 0 && a != b && Bucket(a) == Bucket(b)
    ensures UpdateStats(UpdateStats(t, a, v), b, w) == UpdateStats(UpdateStats(t, b, w), a, v)
  {
    var k := Bucket(a);
    var ba := BucketOf(t, k);
    var ea, eb := Observe(Lookup(t, a), v), Observe(Lookup(t, b), w);
    var ta, tb := UpdateStats(t, a, v), UpdateStats(t, b, w);
    UpdateShape(t, a, v);
    UpdateShape(t, b, w);
    UpdateOthersUnchanged(t, a, v, b);
    UpdateOthersUnchanged(t, b, w, a);
    UpdateShape(ta, b, w);
    UpdateShape(tb, a, v);
    assert BucketOf(ta, k) == ba[a := ea];
    assert BucketOf(tb, k) == ba[b := eb];
    assert ba[a := ea][b := eb] == ba[b := eb][a := ea];
  }

  lemma CommuteApart(t: Table, a: string, v: real, b: string, w: real)
    requires |a| > 0 && |b| > 0 && Bucket(a) != Bucket(b)
    ensures UpdateStats(UpdateStats(t, a, v), b, w) == UpdateStats(UpdateStats(t, b, w), a, v)
  {
    var ka, kb := Bucket(a), Bucket(b);
    var na, nb := BucketOf(t, ka)[a := Observe(Lookup(t, a), v)], BucketOf(t, kb)[b := Observe(Lookup(t, b), w)];
    var ta, tb := UpdateStats(t, a, v), UpdateStats(t, b, w);
    UpdateShape(t, a, v);
    UpdateShape(t, b, w);
    UpdateOthersUnchanged(t, a, v, b);
    UpdateOthersUnchanged(t, b, w, a);
    UpdateShape(ta, b, w);
    UpdateShape(tb, a, v);
    assert BucketOf(ta, kb) == BucketOf(t, kb);
    assert BucketOf(tb, ka) == BucketOf(t, ka);
    assert t[ka := na][kb := nb] == t[kb := nb][ka := na];
  }
}
