/**
 * The plain object both registry revisions keep their modules in, keyed by
 * module id. A JavaScript object remembers the order in which its keys were
 * first created, so the table is that order plus the entries.
 */
module ModuleTable {
  import opened JsValue
  import opened Util
  import opened CommandModule

  datatype Table = Table(ids: seq<string>, byId: map<string, Module>)

  /** Each key listed once, the listed keys are the stored ones, and every
      module sits under its own id. */
  predicate WellFormed(t: Table)
  {
    && NoDuplicates(t.ids)
    && (forall k :: k in t.ids ==> k in t.byId)
    && (forall k :: k in t.byId ==> k in t.ids)
    && (forall k :: k in t.byId ==> t.byId[k].id == k)
  }

  /** `{}` */
  function Empty(): (t: Table)
    ensures WellFormed(t) && |t.ids| == 0 && |t.byId| == 0
  {
    Table([], map[])
  }

  /** `modules[m.id] = m`: the module replaces any entry under its id; a new
      id is placed after the existing ones, an old id keeps its place. */
  function Put(t: Table, m: Module): (r: Table)
    requires WellFormed(t)
    ensures WellFormed(r)
    ensures m.id in r.byId && r.byId[m.id] == m
    ensures forall k :: k != m.id ==> (k in r.byId <==> k in t.byId)
    ensures forall k :: k != m.id && k in t.byId ==> r.byId[k] == t.byId[k]
    ensures m.id in t.byId ==> r.ids == t.ids
    ensures m.id !in t.byId ==> r.ids == t.ids + [m.id]
  {
    Table(if m.id in t.byId then t.ids else t.ids + [m.id], t.byId[m.id := m])
  }

  /** The table after putting each of `ms` in turn. */
  function PutAll(t: Table, ms: seq<Module>): (r: Table)
    requires WellFormed(t)
    ensures WellFormed(r)
    ensures t.ids <= r.ids
    ensures forall i :: 0 <= i < |ms| ==> ms[i].id in r.byId
  {
    if ms == [] then t
    else
      var n := |ms| - 1;
      assert forall i :: 0 <= i < n ==> ms[..n][i] == ms[i];
      Put(PutAll(t, ms[..n]), ms[n])
  }

  /** Putting one more module of a list. */
  lemma PutAllStep(t: Table, ms: seq<Module>, i: nat)
    requires WellFormed(t) && i < |ms|
    ensures PutAll(t, ms[..i + 1]) == Put(PutAll(t, ms[..i]), ms[i])
  {
    assert ms[..i + 1][..i] == ms[..i];
  }

  function IdsOf(ms: seq<Module>): seq<string>
  {
    seq(|ms|, i requires 0 <= i < |ms| => ms[i].id)
  }

  predicate HasId(ms: seq<Module>, k: string)
  {
    exists j :: 0 <= j < |ms| && ms[j].id == k
  }

  /** The position of the last module in `ms` with id `k`. */
  function LastIndex(ms: seq<Module>, k: string): (i: nat)
    requires HasId(ms, k)
    ensures i < |ms| && ms[i].id == k
    ensures forall j :: i < j < |ms| ==> ms[j].id != k
  {
    var n := |ms| - 1;
    if ms[n].id == k then n
    else
      assert HasId(ms[..n], k) by {
        var j :| 0 <= j < |ms| && ms[j].id == k;
        assert j < n && ms[..n][j] == ms[j];
      }
      LastIndex(ms[..n], k)
  }

  /** The keys, in order (`_.keys(this.modules)`). */
  function Ids(t: Table): seq<string>
  {
    t.ids
  }

  /** The stored modules in key order (what `_.each` over the object visits). */
  function Modules(t: Table): (r: seq<Module>)
    requires WellFormed(t)
    ensures |r| == |t.ids|
    ensures forall i :: 0 <= i < |r| ==> r[i].id == t.ids[i] && t.ids[i] in t.byId && r[i] == t.byId[t.ids[i]]
    ensures NoDuplicates(r)
    ensures forall k :: k in t.byId ==> t.byId[k] in r
  {
    var r := seq(|t.ids|, i requires 0 <= i < |t.ids| => t.byId[t.ids[i]]);
    assert forall k :: k in t.byId ==> t.byId[k] in r by {
      forall k | k in t.byId ensures t.byId[k] in r {
        var i :| 0 <= i < |t.ids| && t.ids[i] == k;
        assert r[i] == t.byId[k];
      }
    }
    r
  }

  /** `_.map(this.modules, (v) => v.name)` */
  function Names(t: Table): (r: seq<Value>)
    requires WellFormed(t)
    ensures |r| == |t.ids|
    ensures forall i :: 0 <= i < |r| ==> r[i] == Modules(t)[i].name
  {
    var ms := Modules(t);
    seq(|ms|, i requires 0 <= i < |ms| => ms[i].name)
  }

  /** Last writer wins: after putting `ms`, an id one of them carries holds
      the last module carrying it; any other id keeps its old entry or stays
      absent. */
  lemma {:induction false} PutAllLookup(t: Table, ms: seq<Module>, k: string)
    requires WellFormed(t)
    ensures k in PutAll(t, ms).byId <==> k in t.byId || HasId(ms, k)
    ensures HasId(ms, k) ==> PutAll(t, ms).byId[k] == ms[LastIndex(ms, k)]
    ensures !HasId(ms, k) && k in t.byId ==> PutAll(t, ms).byId[k] == t.byId[k]
  {
    if ms != [] {
      var n := |ms| - 1;
      var prefix := ms[..n];
      var before := PutAll(t, prefix);
      assert PutAll(t, ms) == Put(before, ms[n]);
      PutAllLookup(t, prefix, k);
      if ms[n].id == k {
        assert HasId(ms, k);
        assert LastIndex(ms, k) == n;
      } else {
        HasIdPrefix(ms, k);
        if HasId(prefix, k) {
          assert LastIndex(ms, k) == LastIndex(prefix, k);
        }
      }
    }
  }

  lemma HasIdPrefix(ms: seq<Module>, k: string)
    requires ms != [] && ms[|ms| - 1].id != k
    ensures HasId(ms, k) <==> HasId(ms[..|ms| - 1], k)
  {
    var prefix := ms[..|ms| - 1];
    if HasId(ms, k) {
      var j :| 0 <= j < |ms| && ms[j].id == k;
      assert prefix[j] == ms[j];
    }
    if HasId(prefix, k) {
      var j :| 0 <= j < |prefix| && prefix[j].id == k;
      assert ms[j] == prefix[j];
    }
  }

  /** Insertion order: putting `ms` into an empty table lists each id once,
      in the order of its first occurrence. */
  lemma {:induction false} PutAllIds(ms: seq<Module>)
    ensures PutAll(Empty(), ms).ids == Uniq(IdsOf(ms))
  {
    if ms != [] {
      var n := |ms| - 1;
      var before := PutAll(Empty(), ms[..n]);
      var ids := IdsOf(ms);
      PutAllIds(ms[..n]);
      assert ids[..n] == IdsOf(ms[..n]) && ids[n] == ms[n].id && |ids| == n + 1;
      var u := Uniq(ids[..n]);
      assert Uniq(ids) == if ids[n] in u then u else u + [ids[n]];
      assert PutAll(Empty(), ms) == Put(before, ms[n]);
      assert ms[n].id in before.byId <==> ms[n].id in u;
    }
  }

  /** A table filled from empty: its names follow the first-occurrence order
      of the ids, each the name of the last module registered under it. */
  lemma PutAllNames(ms: seq<Module>)
    ensures var t := PutAll(Empty(), ms);
      forall i :: 0 <= i < |t.ids| ==> HasId(ms, t.ids[i]) && Names(t)[i] == ms[LastIndex(ms, t.ids[i])].name
  {
    var t := PutAll(Empty(), ms);
    PutAllIds(ms);
    forall i | 0 <= i < |t.ids|
      ensures HasId(ms, t.ids[i]) && Names(t)[i] == ms[LastIndex(ms, t.ids[i])].name
    {
      var k := t.ids[i];
      assert k in IdsOf(ms);
      var j :| 0 <= j < |IdsOf(ms)| && IdsOf(ms)[j] == k;
      assert ms[j].id == k;
      PutAllLookup(Empty(), ms, k);
    }
  }
}
