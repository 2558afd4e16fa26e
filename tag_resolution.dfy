/**
 * `getAndGenerateTagIds` of createTemplate.ts and updateTemplate.ts: every
 * input tag name is looked up in the tag table by name; a known name yields
 * its stored `tagid`, an unknown one gets a new uuid and a new tag row with
 * counter 1. The two copies differ in one step: the create copy also adds 1
 * to the counter of a known tag, the update copy leaves it alone.
 */
module TagResolution {
  import opened Wrappers
  import opened Records

  datatype CounterPolicy =
    | IncrementExisting  // createTemplate.ts
    | KeepExisting       // updateTemplate.ts

  /** The row a name that has never been seen gets. */
  function NewTag(uuid: string): TagItem {
    TagItem(Some(uuid), Some(UsageIndexPartition), 1)
  }

  /** One loop iteration: resolve `name`, then `tagsRecord[tagId] = name`. */
  function ResolveStep(tags: TagTable, rec: TagsRecord, name: string, uuid: string,
                       policy: CounterPolicy): (TagTable, TagsRecord)
  {
    if name in tags then
      var tags' := if policy == IncrementExisting
                   then tags[name := tags[name].(count := tags[name].count + 1)]
                   else tags;
      (tags', Assign(rec, IdOf(tags[name]), name))
    else
      (tags[name := NewTag(uuid)], Assign(rec, uuid, name))
  }

  /**
   * The whole loop. `uuids[i]` is the uuid generated if `names[i]` turns out to
   * be unknown when it is reached.
   */
  function Resolve(tags: TagTable, rec: TagsRecord, names: seq<string>, uuids: seq<string>,
                   policy: CounterPolicy): (TagTable, TagsRecord)
    requires |uuids| == |names|
    decreases |names|
  {
    if names == [] then (tags, rec)
    else
      var (tags', rec') := ResolveStep(tags, rec, names[0], uuids[0], policy);
      Resolve(tags', rec', names[1..], uuids[1..], policy)
  }

  function Occurrences(names: seq<string>, x: string): (n: nat)
    ensures n > 0 <==> x in names
    decreases |names|
  {
    if names == [] then 0
    else (if names[0] == x then 1 else 0) + Occurrences(names[1..], x)
  }

  function FirstIndex(names: seq<string>, x: string): (i: nat)
    requires x in names
    ensures i < |names| && names[i] == x
    ensures forall j :: 0 <= j < i ==> names[j] != x
    decreases |names|
  {
    if names[0] == x then 0 else 1 + FirstIndex(names[1..], x)
  }

  /** How much the counter policy adds for `n` further occurrences of a known name. */
  function Bumps(policy: CounterPolicy, n: nat): nat {
    if policy == IncrementExisting then n else 0
  }

  /**
   * The tag row of every name after resolution. A name not in the input keeps
   * its row (or its absence). A known name keeps its id and partition, and its
   * counter grows by one per occurrence under the create policy and not at all
   * under the update policy. An unknown name gets the uuid of its first
   * occurrence, the `templateCount` partition, and counter 1, plus one per
   * later occurrence under the create policy. No other row is added.
   */
  lemma {:induction false} ResolveCounts(tags: TagTable, rec: TagsRecord, names: seq<string>,
                                         uuids: seq<string>, policy: CounterPolicy, x: string)
    requires |uuids| == |names|
    ensures var t' := Resolve(tags, rec, names, uuids, policy).0;
      && (x in t' <==> x in tags || x in names)
      && (x in tags ==>
            t'[x] == tags[x].(count := tags[x].count + Bumps(policy, Occurrences(names, x))))
      && (x !in tags && x in names ==>
            t'[x] == TagItem(Some(uuids[FirstIndex(names, x)]), Some(UsageIndexPartition),
                             1 + Bumps(policy, Occurrences(names, x) - 1)))
    decreases |names|
  {
    if names != [] {
      var (t1, r1) := ResolveStep(tags, rec, names[0], uuids[0], policy);
      StepCounts(tags, rec, names[0], uuids[0], policy, x);
      ResolveCounts(t1, r1, names[1..], uuids[1..], policy, x);
      assert x in names <==> x == names[0] || x in names[1..];
      var k := if names[0] == x then 1 else 0;
      assert Occurrences(names, x) == k + Occurrences(names[1..], x);
      if x in tags {
        assert Bumps(policy, Occurrences(names, x)) == Bumps(policy, k) + Bumps(policy, Occurrences(names[1..], x));
      } else if x == names[0] {
        assert FirstIndex(names, x) == 0;
        assert Bumps(policy, Occurrences(names, x) - 1) == Bumps(policy, Occurrences(names[1..], x));
      } else if x in names {
        assert FirstIndex(names, x) == 1 + FirstIndex(names[1..], x);
        assert uuids[FirstIndex(names, x)] == uuids[1..][FirstIndex(names[1..], x)];
      }
    }
  }

  /** The row of `x` after one step: the resolved name is bumped or created, every other name is unchanged. */
  lemma StepCounts(tags: TagTable, rec: TagsRecord, y: string, uuid: string, policy: CounterPolicy, x: string)
    ensures var t1 := ResolveStep(tags, rec, y, uuid, policy).0;
      && (x in t1 <==> x in tags || x == y)
      && (x in tags ==> t1[x] == tags[x].(count := tags[x].count + Bumps(policy, if x == y then 1 else 0)))
      && (x !in tags && x == y ==> t1[x] == NewTag(uuid))
  {
  }

  /** Every entry's id is the id its name has in the tag table. */
  predicate Covered(t: TagTable, r: TagsRecord) {
    forall e :: e in r ==> e.tagname in t && IdOf(t[e.tagname]) == e.tagid
  }

  /** No two tag names share an id. */
  predicate UniqueIds(t: TagTable) {
    forall a, b :: a in t && b in t && a != b ==> IdOf(t[a]) != IdOf(t[b])
  }

  /** The uuids are pairwise distinct and are nobody's id yet, as uuidv4 guarantees. */
  predicate FreshUuids(t: TagTable, uuids: seq<string>) {
    && (forall i, j :: 0 <= i < j < |uuids| ==> uuids[i] != uuids[j])
    && (forall i, n :: 0 <= i < |uuids| && n in t ==> IdOf(t[n]) != uuids[i])
  }

  /**
   * One resolution step keeps the record consistent with the tag table,
   * changes no stored id, and adds a row only for the resolved name.
   */
  lemma ResolveStepKeeps(tags: TagTable, rec: TagsRecord, y: string, uuid: string,
                         policy: CounterPolicy, seen: set<string>)
    requires Covered(tags, rec) && DistinctIds(rec) && UniqueIds(tags)
    requires forall n :: n in tags ==> IdOf(tags[n]) != uuid
    requires forall x :: x in seen ==> x in tags && Lookup(rec, IdOf(tags[x])) == Some(x)
    ensures var (t1, r1) := ResolveStep(tags, rec, y, uuid, policy);
      && Covered(t1, r1) && DistinctIds(r1) && UniqueIds(t1)
      && (forall n :: n in tags ==> n in t1 && IdOf(t1[n]) == IdOf(tags[n]))
      && (forall n :: n in t1 ==> n in tags || n == y)
      && (forall e :: e in r1 ==> e in rec || e.tagname == y)
      && (forall x :: x in seen + {y} ==> x in t1 && Lookup(r1, IdOf(t1[x])) == Some(x))
  {
    var (t1, r1) := ResolveStep(tags, rec, y, uuid, policy);
    var id := if y in tags then IdOf(tags[y]) else uuid;
    assert r1 == Assign(rec, id, y);
    AssignKeepsDistinct(rec, id, y);
    assert y in t1 && IdOf(t1[y]) == id;
    forall x | x in seen + {y}
      ensures x in t1 && Lookup(r1, IdOf(t1[x])) == Some(x)
    {
      AssignLookup(rec, id, y, IdOf(t1[x]));
    }
  }

  lemma {:induction false} ResolveRecord(tags: TagTable, rec: TagsRecord, names: seq<string>,
                                         uuids: seq<string>, policy: CounterPolicy, seen: set<string>)
    requires |uuids| == |names|
    requires Covered(tags, rec) && DistinctIds(rec)
    requires UniqueIds(tags) && FreshUuids(tags, uuids)
    requires forall x :: x in seen ==> x in tags && Lookup(rec, IdOf(tags[x])) == Some(x)
    ensures var (t', r') := Resolve(tags, rec, names, uuids, policy);
      && Covered(t', r') && DistinctIds(r') && UniqueIds(t')
      && (forall e :: e in r' ==> e in rec || e.tagname in names)
      && (forall x :: x in seen || x in names ==> x in t' && Lookup(r', IdOf(t'[x])) == Some(x))
    decreases |names|
  {
    if names != [] {
      var y := names[0];
      var (t1, r1) := ResolveStep(tags, rec, y, uuids[0], policy);
      ResolveStepKeeps(tags, rec, y, uuids[0], policy, seen);
      assert FreshUuids(t1, uuids[1..]) by {
        forall i, n | 0 <= i < |uuids[1..]| && n in t1
          ensures IdOf(t1[n]) != uuids[1..][i]
        {
          assert uuids[1..][i] == uuids[i + 1];
        }
      }
      ResolveRecord(t1, r1, names[1..], uuids[1..], policy, seen + {y});
      assert forall x :: x in names ==> x == y || x in names[1..];
    }
  }

  /**
   * Resolution from an empty record: the record's ids are distinct and each
   * is the id its name has in the tag table, and its names are exactly the
   * distinct input names, provided names and ids correspond one to one.
   */
  lemma ResolvedRecordNames(tags: TagTable, names: seq<string>, uuids: seq<string>,
                            policy: CounterPolicy)
    requires |uuids| == |names|
    requires UniqueIds(tags) && FreshUuids(tags, uuids)
    ensures var (t', r') := Resolve(tags, [], names, uuids, policy);
      && DistinctIds(r') && DistinctNames(r') && Covered(t', r') && UniqueIds(t')
      && Names(r') == (set x | x in names)
  {
    ResolveRecord(tags, [], names, uuids, policy, {});
    var (t', r') := Resolve(tags, [], names, uuids, policy);
    CoveredDistinctNames(t', r');
    forall x | x in names ensures x in Names(r') {
      assert TagRef(IdOf(t'[x]), x) in r';
    }
  }

  /** In a covered record with distinct ids every name occurs once. */
  lemma CoveredDistinctNames(t: TagTable, r: TagsRecord)
    requires Covered(t, r) && DistinctIds(r)
    ensures DistinctNames(r)
  {
    forall i, j | 0 <= i < j < |r| ensures r[i].tagname != r[j].tagname {
      assert r[i] in r && r[j] in r;
    }
  }
}
