/**
 * The initialisation Lambda of the tag table: three fixed tag rows, written
 * by plain puts in list order.
 */
module SeedTags {
  import opened Wrappers
  import opened Records

  datatype SeedItem = SeedItem(tagname: string, item: TagItem)

  const Items: seq<SeedItem> := [
    SeedItem("デザイナー", TagItem(Some("00000000-0000-0000-0000-000000000001"), Some(UsageIndexPartition), 0)),
    SeedItem("営業", TagItem(Some("00000000-0000-0000-0000-000000000002"), Some(UsageIndexPartition), 0)),
    SeedItem("マーチャンダイザー", TagItem(Some("00000000-0000-0000-0000-000000000003"), Some(UsageIndexPartition), 0))
  ]

  /** Puts in order; a later put of the same name replaces an earlier one. */
  function PutAll(tags: TagTable, items: seq<SeedItem>): TagTable
    decreases |items|
  {
    if items == [] then tags else PutAll(tags[items[0].tagname := items[0].item], items[1..])
  }

  function Seed(tags: TagTable): TagTable {
    PutAll(tags, Items)
  }

  /** The row each seeded name gets. */
  function Seeded(name: string): Option<TagItem> {
    if name == "デザイナー" then Some(TagItem(Some("00000000-0000-0000-0000-000000000001"), Some(UsageIndexPartition), 0))
    else if name == "営業" then Some(TagItem(Some("00000000-0000-0000-0000-000000000002"), Some(UsageIndexPartition), 0))
    else if name == "マーチャンダイザー" then Some(TagItem(Some("00000000-0000-0000-0000-000000000003"), Some(UsageIndexPartition), 0))
    else None
  }

  /** A name no put of the sequence names keeps its row, or its absence. */
  lemma {:induction false} PutAllOthers(tags: TagTable, items: seq<SeedItem>, n: string)
    requires forall i :: 0 <= i < |items| ==> items[i].tagname != n
    ensures n in PutAll(tags, items) <==> n in tags
    ensures n in tags ==> PutAll(tags, items)[n] == tags[n]
    decreases |items|
  {
    if items != [] {
      assert forall i :: 0 <= i < |items[1..]| ==> items[1..][i] == items[i + 1];
      PutAllOthers(tags[items[0].tagname := items[0].item], items[1..], n);
    }
  }

  /** A put sequence gives a name the row of its last put. */
  lemma {:induction false} PutAllLast(tags: TagTable, items: seq<SeedItem>, n: string, i: nat)
    requires i < |items| && items[i].tagname == n
    requires forall j :: i < j < |items| ==> items[j].tagname != n
    ensures n in PutAll(tags, items) && PutAll(tags, items)[n] == items[i].item
    decreases |items|
  {
    var t1 := tags[items[0].tagname := items[0].item];
    assert forall j :: 0 <= j < |items[1..]| ==> items[1..][j] == items[j + 1];
    if i == 0 {
      PutAllOthers(t1, items[1..], n);
    } else {
      PutAllLast(t1, items[1..], n, i - 1);
    }
  }

  /**
   * After seeding, the three seeded names have exactly their fixed rows (id,
   * usage-index partition "templateCount", counter 0) and every other name
   * keeps its row; the seeded names are exactly the protected ones.
   */
  lemma SeedState(tags: TagTable, n: string)
    ensures Seeded(n).Some? <==> Protected(n)
    ensures Protected(n) ==> n in Seed(tags) && Seed(tags)[n] == Seeded(n).value
    ensures !Protected(n) ==> (n in Seed(tags) <==> n in tags) && (n in tags ==> Seed(tags)[n] == tags[n])
    ensures Protected(n) ==> Seed(tags)[n].gsiPk == Some("templateCount") && Seed(tags)[n].count == 0
  {
    if n == "デザイナー" {
      PutAllLast(tags, Items, n, 0);
    } else if n == "営業" {
      PutAllLast(tags, Items, n, 1);
    } else if n == "マーチャンダイザー" {
      PutAllLast(tags, Items, n, 2);
    } else {
      PutAllOthers(tags, Items, n);
    }
  }

  /** Seeding twice is seeding once: re-running resets the three rows and nothing else. */
  lemma SeedIdempotent(tags: TagTable)
    ensures Seed(Seed(tags)) == Seed(tags)
  {
    forall n ensures (n in Seed(Seed(tags)) <==> n in Seed(tags))
      && (n in Seed(tags) ==> Seed(Seed(tags))[n] == Seed(tags)[n])
    {
      SeedState(tags, n);
      SeedState(Seed(tags), n);
    }
  }
}
