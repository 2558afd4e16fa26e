/**
 * Writes to the template table, each one checked the way the handlers check
 * `$metadata.httpStatusCode`: the first write whose key is in `failed` is not
 * applied and ends the sequence with `false`; nothing written before it is
 * rolled back.
 */
module StoreWrites {
  import opened Wrappers
  import opened Records

  datatype Write =
    | Put(key: Key, item: Item)
      /** `UpdateCommand` with `SET copycount = :c`: an upsert. */
    | SetCopycount(key: Key, copycount: nat)
    | Delete(key: Key)

  function Apply(t: Table, w: Write): Table {
    match w
    case Put(k, item) => t[k := item]
    case SetCopycount(k, c) => t[k := if k in t then WithCopycount(t[k], c) else Association(None, c)]
    case Delete(k) => t - {k}
  }

  /** All writes applied, none failing. */
  function ApplyAll(t: Table, ws: seq<Write>): Table
    decreases |ws|
  {
    if ws == [] then t else ApplyAll(Apply(t, ws[0]), ws[1..])
  }

  /** Writes applied in order until the first failing one; `true` when none failed. */
  function ApplyWrites(t: Table, ws: seq<Write>, failed: set<Key>): (Table, bool)
    decreases |ws|
  {
    if ws == [] then (t, true)
    else if ws[0].key in failed then (t, false)
    else ApplyWrites(Apply(t, ws[0]), ws[1..], failed)
  }

  function WriteKeys(ws: seq<Write>): set<Key> {
    set w | w in ws :: w.key
  }

  /** Index of the first write that fails, or |ws| when none does. */
  function FirstFailure(ws: seq<Write>, failed: set<Key>): (j: nat)
    ensures j <= |ws|
    ensures j < |ws| ==> ws[j].key in failed
    ensures forall i :: 0 <= i < j ==> ws[i].key !in failed
    decreases |ws|
  {
    if ws == [] then 0
    else if ws[0].key in failed then 0
    else 1 + FirstFailure(ws[1..], failed)
  }

  /** A checked write sequence applies exactly the writes before the first failure. */
  lemma {:induction false} ApplyWritesStops(t: Table, ws: seq<Write>, failed: set<Key>)
    ensures ApplyWrites(t, ws, failed)
            == (ApplyAll(t, ws[..FirstFailure(ws, failed)]), FirstFailure(ws, failed) == |ws|)
    decreases |ws|
  {
    if ws != [] && ws[0].key !in failed {
      ApplyWritesStops(Apply(t, ws[0]), ws[1..], failed);
      assert ws[..FirstFailure(ws, failed)][1..] == ws[1..][..FirstFailure(ws[1..], failed)];
    }
  }

  lemma {:induction false} ApplyAllConcat(t: Table, a: seq<Write>, b: seq<Write>)
    ensures ApplyAll(t, a + b) == ApplyAll(ApplyAll(t, a), b)
    decreases |a|
  {
    if a != [] {
      assert (a + b)[0] == a[0];
      assert (a + b)[1..] == a[1..] + b;
      ApplyAllConcat(Apply(t, a[0]), a[1..], b);
    } else {
      assert a + b == b;
    }
  }

  lemma WriteKeysTail(ws: seq<Write>)
    requires ws != []
    ensures WriteKeys(ws) == {ws[0].key} + WriteKeys(ws[1..])
  {
    assert ws == [ws[0]] + ws[1..];
    assert forall w :: w in ws <==> w == ws[0] || w in ws[1..];
  }

  /** A key no write touches keeps its row, or its absence. */
  lemma {:induction false} ApplyAllUntouched(t: Table, ws: seq<Write>, k: Key)
    requires k !in WriteKeys(ws)
    ensures k in ApplyAll(t, ws) <==> k in t
    ensures k in t ==> ApplyAll(t, ws)[k] == t[k]
    decreases |ws|
  {
    if ws != [] {
      WriteKeysTail(ws);
      ApplyAllUntouched(Apply(t, ws[0]), ws[1..], k);
    }
  }

  /** The last write to a key decides its row. */
  lemma {:induction false} ApplyAllLast(t: Table, ws: seq<Write>, i: nat)
    requires i < |ws|
    requires forall j :: i < j < |ws| ==> ws[j].key != ws[i].key
    ensures var r := ApplyAll(t, ws); var k := ws[i].key; var before := ApplyAll(t, ws[..i]);
      match ws[i]
      case Put(_, item) => k in r && r[k] == item
      case SetCopycount(_, c) =>
        k in r && r[k] == (if k in before then WithCopycount(before[k], c) else Association(None, c))
      case Delete(_) => k !in r
    decreases |ws|
  {
    if i == 0 {
      WriteKeysTail(ws);
      assert ws[0].key !in WriteKeys(ws[1..]) by {
        forall w | w in ws[1..] ensures w.key != ws[0].key {
          var j :| 0 <= j < |ws[1..]| && ws[1..][j] == w;
          assert ws[j + 1] == w;
        }
      }
      ApplyAllUntouched(Apply(t, ws[0]), ws[1..], ws[0].key);
    } else {
      ApplyAllLast(Apply(t, ws[0]), ws[1..], i - 1);
      assert ws[1..][..i - 1] == ws[..i][1..];
    }
  }

  /** One put per tag entry: `id: 'tag#' + tagId` with the given date and copy count. */
  function AssociationPuts(rec: TagsRecord, tid: string, createdDate: string, copycount: nat): seq<Write> {
    seq(|rec|, i requires 0 <= i < |rec| =>
      Put(AssocKey(rec[i].tagid, tid), Association(Some(createdDate), copycount)))
  }

  /** One delete per tag entry. */
  function AssociationDeletes(rec: TagsRecord, tid: string): seq<Write> {
    seq(|rec|, i requires 0 <= i < |rec| => Delete(AssocKey(rec[i].tagid, tid)))
  }

  /** One `SET copycount` per tag entry. */
  function CopycountWrites(rec: TagsRecord, tid: string, copycount: nat): seq<Write> {
    seq(|rec|, i requires 0 <= i < |rec| => SetCopycount(AssocKey(rec[i].tagid, tid), copycount))
  }

  /** Writes that follow a tag record touch exactly its association keys. */
  lemma KeysFollowRecord(ws: seq<Write>, rec: TagsRecord, tid: string)
    requires |ws| == |rec|
    requires forall i :: 0 <= i < |ws| ==> ws[i].key == AssocKey(rec[i].tagid, tid)
    ensures WriteKeys(ws) == AssocKeys(rec, tid)
  {
    forall k | k in WriteKeys(ws) ensures k in AssocKeys(rec, tid) {
      var w :| w in ws && w.key == k;
      var i :| 0 <= i < |ws| && ws[i] == w;
      assert rec[i] in rec;
    }
    forall k | k in AssocKeys(rec, tid) ensures k in WriteKeys(ws) {
      var e :| e in rec && k == AssocKey(e.tagid, tid);
      var i :| 0 <= i < |rec| && rec[i] == e;
      assert ws[i] in ws;
    }
  }

  /** Writes that follow a record with distinct ids hit distinct keys. */
  lemma KeysDistinct(ws: seq<Write>, rec: TagsRecord, tid: string)
    requires |ws| == |rec| && DistinctIds(rec)
    requires forall i :: 0 <= i < |ws| ==> ws[i].key == AssocKey(rec[i].tagid, tid)
    ensures forall i, j :: 0 <= i < j < |ws| ==> ws[i].key != ws[j].key
  {
    forall i, j | 0 <= i < j < |ws| ensures ws[i].key != ws[j].key {
      if ws[i].key == ws[j].key {
        AssocKeyInjective(rec[i].tagid, rec[j].tagid, tid, tid);
      }
    }
  }

  predicate DistinctKeys(ws: seq<Write>) {
    forall i, j :: 0 <= i < j < |ws| ==> ws[i].key != ws[j].key
  }

  /** What `w` leaves at its own key, when nothing else writes that key. */
  predicate Landed(before: Table, after: Table, w: Write) {
    match w
    case Put(k, item) => k in after && after[k] == item
    case SetCopycount(k, c) =>
      k in after && after[k] == (if k in before then WithCopycount(before[k], c) else Association(None, c))
    case Delete(k) => k !in after
  }

  /**
   * Every key written by a duplicate-free write sequence ends as its write
   * says; every other key is untouched.
   */
  lemma ApplyAllDistinct(t: Table, ws: seq<Write>, k: Key)
    requires DistinctKeys(ws)
    ensures k !in WriteKeys(ws) ==> (k in ApplyAll(t, ws) <==> k in t)
    ensures k !in WriteKeys(ws) && k in t ==> ApplyAll(t, ws)[k] == t[k]
    ensures forall i :: 0 <= i < |ws| && ws[i].key == k ==> Landed(t, ApplyAll(t, ws), ws[i])
  {
    if k !in WriteKeys(ws) {
      ApplyAllUntouched(t, ws, k);
    }
    forall i | 0 <= i < |ws| && ws[i].key == k
      ensures Landed(t, ApplyAll(t, ws), ws[i])
    {
      ApplyAllLast(t, ws, i);
      assert k !in WriteKeys(ws[..i]) by {
        forall w | w in ws[..i] ensures w.key != k {
          var j :| 0 <= j < i && ws[..i][j] == w;
        }
      }
      ApplyAllUntouched(t, ws[..i], k);
    }
  }

  /** A write sequence of puts to distinct keys adds or overwrites exactly those keys. */
  lemma ApplyAllDistinctPuts(t: Table, ws: seq<Write>)
    requires DistinctKeys(ws)
    requires forall i :: 0 <= i < |ws| ==> ws[i].Put?
    ensures ApplyAll(t, ws).Keys == t.Keys + WriteKeys(ws)
    ensures forall i :: 0 <= i < |ws| ==> ApplyAll(t, ws)[ws[i].key] == ws[i].item
    ensures forall k :: k in t && k !in WriteKeys(ws) ==> ApplyAll(t, ws)[k] == t[k]
  {
    var r := ApplyAll(t, ws);
    forall k ensures (k in r <==> k in t || k in WriteKeys(ws)) && (k in t && k !in WriteKeys(ws) ==> r[k] == t[k]) {
      ApplyAllDistinct(t, ws, k);
      if k in WriteKeys(ws) {
        var i :| 0 <= i < |ws| && ws[i].key == k;
      }
    }
    forall i | 0 <= i < |ws| ensures r[ws[i].key] == ws[i].item {
      ApplyAllDistinct(t, ws, ws[i].key);
    }
  }

  /** A write sequence of deletes to distinct keys removes exactly those keys. */
  lemma ApplyAllDistinctDeletes(t: Table, ws: seq<Write>)
    requires DistinctKeys(ws)
    requires forall i :: 0 <= i < |ws| ==> ws[i].Delete?
    ensures ApplyAll(t, ws) == t - WriteKeys(ws)
  {
    var r := ApplyAll(t, ws);
    forall k ensures (k in r <==> k in t - WriteKeys(ws)) && (k in r ==> r[k] == t[k]) {
      ApplyAllDistinct(t, ws, k);
      if k in WriteKeys(ws) {
        var i :| 0 <= i < |ws| && ws[i].key == k;
      }
    }
  }

  /** A write sequence of copy-count updates to distinct keys sets exactly those keys. */
  lemma ApplyAllDistinctCopycounts(t: Table, ws: seq<Write>)
    requires DistinctKeys(ws)
    requires forall i :: 0 <= i < |ws| ==> ws[i].SetCopycount?
    ensures ApplyAll(t, ws).Keys == t.Keys + WriteKeys(ws)
    ensures forall i :: 0 <= i < |ws| ==> Landed(t, ApplyAll(t, ws), ws[i])
    ensures forall k :: k in t && k !in WriteKeys(ws) ==> ApplyAll(t, ws)[k] == t[k]
  {
    var r := ApplyAll(t, ws);
    forall k ensures (k in r <==> k in t || k in WriteKeys(ws)) && (k in t && k !in WriteKeys(ws) ==> r[k] == t[k]) {
      ApplyAllDistinct(t, ws, k);
      if k in WriteKeys(ws) {
        var i :| 0 <= i < |ws| && ws[i].key == k;
      }
    }
    forall i | 0 <= i < |ws| ensures Landed(t, r, ws[i]) {
      ApplyAllDistinct(t, ws, ws[i].key);
    }
  }

  /** A checked write sequence, failing or not, leaves every key it does not name alone. */
  lemma ApplyWritesOutside(t: Table, ws: seq<Write>, failed: set<Key>, k: Key)
    requires k !in WriteKeys(ws)
    ensures k in ApplyWrites(t, ws, failed).0 <==> k in t
    ensures k in t ==> ApplyWrites(t, ws, failed).0[k] == t[k]
  {
    ApplyWritesStops(t, ws, failed);
    var j := FirstFailure(ws, failed);
    assert k !in WriteKeys(ws[..j]) by {
      forall w | w in ws[..j] ensures w.key != k {
        var i :| 0 <= i < j && ws[..j][i] == w;
        assert ws[i] in ws;
      }
    }
    ApplyAllUntouched(t, ws[..j], k);
  }
}
