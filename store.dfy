/** The content store: `Database.add`, `update` and `remove`.

    Each operation is specified by a function on the two tables (Added,
    Updated, Removed); the class Database holds the tables and its methods
    change them in place to exactly what those functions give.
 */
module Store {
  import opened Records

  /** The two ways a store operation fails: a primary-key clash on commit
      (add), and deleting a row that is not there (remove). */
  datatype StoreError = DuplicateKey(key: string) | NoSuchRow(key: string)

  datatype Result<T> = Ok(value: T) | Err(error: StoreError)

  /** The keys listed under `uid`, or none when the UID is absent. */
  function Rows(t: Tables, uid: string): seq<string> {
    if uid in t.uids then t.uids[uid] else []
  }

  /** The row `add` appends: no expiration and no URL yet. */
  function NewRow(uid: string, cid: string, service: string, queue: int): (c: Content)
    ensures c.key == Key(uid, cid) && c.owner == uid
    ensures c.service == service && c.queue == queue
    ensures c.expiration == None && c.url == None
  {
    Content(Key(uid, cid), service, queue, None, None, uid)
  }

  /** `add`: find or create the UID record and append a row keyed `uid#cid`.
      A key already in the Content table violates its primary key and
      nothing is committed. */
  function Added(t: Tables, uid: string, cid: string, service: string, queue: int): (r: Result<Tables>)
    ensures r.Err? <==> Key(uid, cid) in t.contents
    ensures r.Err? ==> r.error == DuplicateKey(Key(uid, cid))
    ensures r.Ok? ==> r.value.uids.Keys == t.uids.Keys + {uid}
    ensures r.Ok? ==> Rows(r.value, uid) == Rows(t, uid) + [Key(uid, cid)]
    ensures r.Ok? ==> forall u :: u in t.uids && u != uid ==> r.value.uids[u] == t.uids[u]
    ensures r.Ok? ==> r.value.contents.Keys == t.contents.Keys + {Key(uid, cid)}
    ensures r.Ok? ==> forall k :: k in t.contents ==> r.value.contents[k] == t.contents[k]
  {
    var k := Key(uid, cid);
    if k in t.contents then
      Err(DuplicateKey(k))
    else
      Ok(Tables(t.uids[uid := Rows(t, uid) + [k]], t.contents[k := NewRow(uid, cid, service, queue)]))
  }

  /** The row after `update` has overwritten its status fields. */
  function Refreshed(c: Content, queue: int, expiration: Option<int>, url: Option<string>): (d: Content)
    ensures d.queue == queue && d.expiration == expiration && d.url == url
    ensures d.key == c.key && d.service == c.service && d.owner == c.owner
  {
    c.(queue := queue, expiration := expiration, url := url)
  }

  /** `update`: overwrite queue, expiration and URL of the row `uid#cid` when
      the UID lists it; otherwise nothing changes. */
  function Updated(t: Tables, uid: string, cid: string, queue: int,
                   expiration: Option<int>, url: Option<string>): (r: Tables)
    ensures r.uids == t.uids
    ensures r.contents.Keys == t.contents.Keys
    ensures forall k :: k in t.contents && k != Key(uid, cid) ==> r.contents[k] == t.contents[k]
    ensures Key(uid, cid) !in Rows(t, uid) ==> r == t
  {
    var k := Key(uid, cid);
    if uid in t.uids && k in t.uids[uid] && k in t.contents then
      Tables(t.uids, t.contents[k := Refreshed(t.contents[k], queue, expiration, url)])
    else
      t
  }

  /** Python's truth test on the content id: none and the empty string both
      select removal of the whole UID. */
  predicate WholeUid(cid: Option<string>) {
    cid.None? || cid.value == ""
  }

  /** The keys of `s` other than `k`, in their order. */
  function Without(s: seq<string>, k: string): (r: seq<string>)
    ensures forall x :: x in r <==> x in s && x != k
    ensures |r| <= |s|
  {
    if s == [] then []
    else (if s[0] == k then [] else [s[0]]) + Without(s[1..], k)
  }

  /** The rows not owned by `uid`. */
  function OthersRows(contents: map<string, Content>, uid: string): (r: map<string, Content>)
    ensures forall k :: k in r <==> k in contents && contents[k].owner != uid
    ensures forall k :: k in r ==> r[k] == contents[k]
  {
    map k | k in contents && contents[k].owner != uid :: contents[k]
  }

  /** `remove` as written: the row is looked up by its key in the whole
      Content table and deleted from whichever UID holds it. */
  function RemovedAsWritten(t: Tables, uid: string, cid: Option<string>): (r: Result<Tables>)
    ensures uid !in t.uids ==> r == Ok(t)
    ensures uid in t.uids && WholeUid(cid) ==>
              r == Ok(Tables(t.uids - {uid}, OthersRows(t.contents, uid)))
    ensures uid in t.uids && !WholeUid(cid) ==>
              (r.Err? <==> Key(uid, cid.value) !in t.contents)
    ensures r.Err? ==> r.error == NoSuchRow(Key(uid, cid.value))
    ensures uid in t.uids && !WholeUid(cid) && r.Ok? ==>
              var k := Key(uid, cid.value);
              var o := t.contents[k].owner;
              && r.value.contents == t.contents - {k}
              && r.value.uids == t.uids[o := Without(Rows(t, o), k)]
  {
    if uid !in t.uids then Ok(t)
    else if WholeUid(cid) then Ok(Tables(t.uids - {uid}, OthersRows(t.contents, uid)))
    else
      var k := Key(uid, cid.value);
      if k !in t.contents then Err(NoSuchRow(k))
      else
        var owner := t.contents[k].owner;
        Ok(Tables(t.uids[owner := Without(Rows(t, owner), k)], t.contents - {k}))
  }

  /** The tables after the row `k` leaves the list of `uid` and the table. */
  function RowRemoved(t: Tables, uid: string, k: string): Tables
    requires uid in t.uids
  {
    Tables(t.uids[uid := Without(t.uids[uid], k)], t.contents - {k})
  }

  /** `remove`: for an unknown UID nothing happens; without a content id the
      UID goes with all its rows; with one, only the row `uid#cid` listed
      under that UID goes, and a missing row is an error. */
  function Removed(t: Tables, uid: string, cid: Option<string>): (r: Result<Tables>)
    ensures uid !in t.uids ==> r == Ok(t)
    ensures r.Err? <==> uid in t.uids && !WholeUid(cid) && Key(uid, cid.value) !in t.uids[uid]
    ensures r.Err? ==> r.error == NoSuchRow(Key(uid, cid.value))
    ensures uid in t.uids && WholeUid(cid) ==>
              r.Ok? && r.value.uids.Keys == t.uids.Keys - {uid}
    ensures r.Ok? ==> forall u :: u in t.uids && u != uid ==> u in r.value.uids && r.value.uids[u] == t.uids[u]
    ensures r.Ok? ==> r.value.contents.Keys <= t.contents.Keys
    ensures r.Ok? ==> forall k :: k in r.value.contents ==> r.value.contents[k] == t.contents[k]
  {
    if uid !in t.uids then Ok(t)
    else if WholeUid(cid) then Ok(Tables(t.uids - {uid}, OthersRows(t.contents, uid)))
    else
      var k := Key(uid, cid.value);
      if k !in t.uids[uid] then Err(NoSuchRow(k))
      else Ok(RowRemoved(t, uid, k))
  }

  // ---------------------------------------------------------------------
  // Removing one key from a UID's list

  lemma {:induction false} WithoutAbsent(s: seq<string>, k: string)
    requires k !in s
    ensures Without(s, k) == s
  {
    if s != [] {
      WithoutAbsent(s[1..], k);
      assert s == [s[0]] + s[1..];
    }
  }

  /** Dropping a key that occurs once keeps the others in their order. */
  lemma {:induction false} WithoutSplit(a: seq<string>, k: string, b: seq<string>)
    requires k !in a && k !in b
    ensures Without(a + [k] + b, k) == a + b
  {
    if a == [] {
      assert (a + [k] + b)[1..] == b;
      WithoutAbsent(b, k);
    } else {
      assert (a + [k] + b)[1..] == a[1..] + [k] + b;
      WithoutSplit(a[1..], k, b);
      assert a + b == [a[0]] + (a[1..] + b);
    }
  }

  /** A list without duplicates splits around any key it holds. */
  lemma SplitAt(s: seq<string>, k: string) returns (a: seq<string>, b: seq<string>)
    requires NoDuplicates(s) && k in s
    ensures s == a + [k] + b && k !in a && k !in b
    ensures Without(s, k) == a + b
  {
    var i :| 0 <= i < |s| && s[i] == k;
    a, b := s[..i], s[i + 1..];
    assert s == a + [k] + b;
    forall j | 0 <= j < |a| ensures a[j] != k {
      assert a[j] == s[j];
    }
    forall j | 0 <= j < |b| ensures b[j] != k {
      assert b[j] == s[i + 1 + j];
    }
    WithoutSplit(a, k, b);
  }

  lemma NoDuplicatesWithout(a: seq<string>, k: string, b: seq<string>)
    requires NoDuplicates(a + [k] + b)
    ensures NoDuplicates(a + b)
  {
    var s, r := a + [k] + b, a + b;
    forall i, j | 0 <= i < j < |r| ensures r[i] != r[j] {
      var i', j' := if i < |a| then i else i + 1, if j < |a| then j else j + 1;
      assert r[i] == s[i'] && r[j] == s[j'];
    }
  }

  // ---------------------------------------------------------------------
  // The operations keep the tables consistent

  lemma AddPreservesValid(t: Tables, uid: string, cid: string, service: string, queue: int)
    requires Valid(t)
    ensures Added(t, uid, cid, service, queue).Ok? ==> Valid(Added(t, uid, cid, service, queue).value)
  {
    var r := Added(t, uid, cid, service, queue);
    if r.Ok? {
      var k, t' := Key(uid, cid), r.value;
      var rows := Rows(t, uid);
      forall i | 0 <= i < |rows| ensures rows[i] != k {
        assert rows[i] in t.contents;
      }
      assert NoDuplicates(rows + [k]);
      forall u, i | u in t'.uids && 0 <= i < |t'.uids[u]|
        ensures t'.uids[u][i] in t'.contents && t'.contents[t'.uids[u][i]].owner == u
      {
        if u == uid && i == |rows| {
          assert t'.uids[u][i] == k;
        } else {
          assert t'.uids[u][i] == t.uids[u][i];
        }
      }
      forall k' | k' in t'.contents
        ensures k' in t'.uids[t'.contents[k'].owner]
      {
        if k' != k {
          var o := t.contents[k'].owner;
          if o == uid {
            assert t'.uids[o] == t.uids[o] + [k];
          }
        } else {
          assert t'.uids[uid][|rows|] == k;
        }
      }
    }
  }

  lemma UpdatePreservesValid(t: Tables, uid: string, cid: string, queue: int,
                             expiration: Option<int>, url: Option<string>)
    requires Valid(t)
    ensures Valid(Updated(t, uid, cid, queue, expiration, url))
  {
  }

  lemma RemoveUidPreservesValid(t: Tables, uid: string)
    requires Valid(t)
    ensures Valid(Tables(t.uids - {uid}, OthersRows(t.contents, uid)))
  {
    var t' := Tables(t.uids - {uid}, OthersRows(t.contents, uid));
    forall k | k in t'.contents ensures t'.contents[k].owner in t'.uids { }
  }

  lemma RowRemovedKeepsOwners(t: Tables, uid: string, a: seq<string>, k: string, b: seq<string>)
    requires ListedRowsOwned(t)
    requires uid in t.uids && t.uids[uid] == a + [k] + b && k !in a && k !in b
    requires k in t.contents && t.contents[k].owner == uid
    ensures ListedRowsOwned(RowRemoved(t, uid, k))
  {
    var t' := RowRemoved(t, uid, k);
    WithoutSplit(a, k, b);
    forall u, i | u in t'.uids && 0 <= i < |t'.uids[u]|
      ensures t'.uids[u][i] in t'.contents && t'.contents[t'.uids[u][i]].owner == u
    {
      if u == uid {
        var j := if i < |a| then i else i + 1;
        assert t'.uids[u][i] == t.uids[u][j];
      } else {
        assert t.contents[t.uids[u][i]].owner == u;
      }
    }
  }

  lemma RowRemovedKeepsDistinct(t: Tables, uid: string, a: seq<string>, k: string, b: seq<string>)
    requires ListsDistinct(t)
    requires uid in t.uids && t.uids[uid] == a + [k] + b && k !in a && k !in b
    ensures ListsDistinct(RowRemoved(t, uid, k))
  {
    WithoutSplit(a, k, b);
    NoDuplicatesWithout(a, k, b);
  }

  lemma RowRemovedKeepsListed(t: Tables, uid: string, k: string)
    requires RowsListed(t)
    requires uid in t.uids
    ensures RowsListed(RowRemoved(t, uid, k))
  {
    var t' := RowRemoved(t, uid, k);
    forall k' | k' in t'.contents
      ensures t'.contents[k'].owner in t'.uids && k' in t'.uids[t'.contents[k'].owner]
    {
      assert k' in t.uids[t.contents[k'].owner];
    }
  }

  lemma RemoveRowPreservesValid(t: Tables, uid: string, k: string)
    requires Valid(t)
    requires uid in t.uids && k in t.uids[uid]
    ensures Valid(RowRemoved(t, uid, k))
  {
    var a, b := SplitAt(t.uids[uid], k);
    var i :| 0 <= i < |t.uids[uid]| && t.uids[uid][i] == k;
    assert t.contents[k].owner == uid;
    RowRemovedKeepsOwners(t, uid, a, k, b);
    RowRemovedKeepsDistinct(t, uid, a, k, b);
    RowRemovedKeepsListed(t, uid, k);
  }

  lemma RemovePreservesValid(t: Tables, uid: string, cid: Option<string>)
    requires Valid(t)
    ensures Removed(t, uid, cid).Ok? ==> Valid(Removed(t, uid, cid).value)
  {
    if uid in t.uids {
      if WholeUid(cid) {
        RemoveUidPreservesValid(t, uid);
      } else if Key(uid, cid.value) in t.uids[uid] {
        RemoveRowPreservesValid(t, uid, Key(uid, cid.value));
      }
    }
  }

  /** `remove` as written also keeps the tables consistent: the row it
      deletes leaves its own owner's list, whichever UID that is. */
  lemma RemoveAsWrittenPreservesValid(t: Tables, uid: string, cid: Option<string>)
    requires Valid(t)
    ensures RemovedAsWritten(t, uid, cid).Ok? ==> Valid(RemovedAsWritten(t, uid, cid).value)
  {
    if uid in t.uids {
      if WholeUid(cid) {
        RemoveUidPreservesValid(t, uid);
      } else if Key(uid, cid.value) in t.contents {
        var k := Key(uid, cid.value);
        RemoveRowPreservesValid(t, t.contents[k].owner, k);
      }
    }
  }

  // ---------------------------------------------------------------------
  // What the operations promise

  /** After a successful `add` the UID exists and `query_one_content` finds
      the new row with the given service and queue position. */
  lemma AddThenQuery(t: Tables, uid: string, cid: string, service: string, queue: int)
    requires Valid(t)
    requires Added(t, uid, cid, service, queue).Ok?
    ensures Valid(Added(t, uid, cid, service, queue).value)
    ensures uid in Added(t, uid, cid, service, queue).value.uids
    ensures QueryOneContent(Added(t, uid, cid, service, queue).value, uid, cid)
            == Some(NewRow(uid, cid, service, queue))
  {
    AddPreservesValid(t, uid, cid, service, queue);
  }

  /** `add` creates a UID record only when there is none; either way that
      UID gets exactly one more row and no other UID changes. */
  lemma AddGrowsOneUid(t: Tables, uid: string, cid: string, service: string, queue: int)
    requires Added(t, uid, cid, service, queue).Ok?
    ensures var t' := Added(t, uid, cid, service, queue).value;
            && (uid in t.uids ==> t'.uids.Keys == t.uids.Keys)
            && (uid !in t.uids ==> |t'.uids.Keys| == |t.uids.Keys| + 1)
            && |t'.uids[uid]| == |Rows(t, uid)| + 1
            && t'.uids[uid][..|Rows(t, uid)|] == Rows(t, uid)
  {
    var t' := Added(t, uid, cid, service, queue).value;
    if uid !in t.uids {
      assert t'.uids.Keys == t.uids.Keys + {uid};
    }
    assert t'.uids[uid] == Rows(t, uid) + [Key(uid, cid)];
  }

  /** `update` on the row `uid#cid` of an existing UID sets exactly the
      status fields, and `query_one_content` sees them. */
  lemma UpdateThenQuery(t: Tables, uid: string, cid: string, queue: int,
                        expiration: Option<int>, url: Option<string>)
    requires Valid(t)
    requires uid in t.uids && Key(uid, cid) in t.uids[uid]
    ensures var c := QueryOneContent(Updated(t, uid, cid, queue, expiration, url), uid, cid);
            && c.Some?
            && c.value == Refreshed(t.contents[Key(uid, cid)], queue, expiration, url)
            && c.value.owner == uid
  {
    UpdatePreservesValid(t, uid, cid, queue, expiration, url);
    QueryFindsListedRow(t, uid, cid);
  }

  /** Repeating the same `update` changes nothing more. */
  lemma UpdateIdempotent(t: Tables, uid: string, cid: string, queue: int,
                         expiration: Option<int>, url: Option<string>)
    ensures var t' := Updated(t, uid, cid, queue, expiration, url);
            Updated(t', uid, cid, queue, expiration, url) == t'
  {
    var k := Key(uid, cid);
    var t' := Updated(t, uid, cid, queue, expiration, url);
    if uid in t.uids && k in t.uids[uid] && k in t.contents {
      assert t'.contents[k] == Refreshed(t'.contents[k], queue, expiration, url);
      assert t'.contents[k := t'.contents[k]] == t'.contents;
    }
  }

  /** Removing a whole UID cascades to exactly its rows. */
  lemma RemoveUidCascades(t: Tables, uid: string, cid: Option<string>)
    requires Valid(t)
    requires uid in t.uids && WholeUid(cid)
    ensures var t' := Removed(t, uid, cid).value;
            && uid !in t'.uids
            && forall k :: k in t.contents ==> (k in t'.contents <==> k !in t.uids[uid])
  {
    var t' := Removed(t, uid, cid).value;
    forall k | k in t.contents ensures k in t'.contents <==> k !in t.uids[uid] {
      if k in t.uids[uid] {
        var i :| 0 <= i < |t.uids[uid]| && t.uids[uid][i] == k;
      }
    }
  }

  /** Removing one row keeps its UID and that UID's other rows, in order. */
  lemma RemoveRowKeepsRest(t: Tables, uid: string, cid: string)
    requires Valid(t)
    requires uid in t.uids && cid != "" && Key(uid, cid) in t.uids[uid]
    ensures var t' := Removed(t, uid, Some(cid)).value;
            && uid in t'.uids
            && t'.contents.Keys == t.contents.Keys - {Key(uid, cid)}
            && exists a, b :: t.uids[uid] == a + [Key(uid, cid)] + b && t'.uids[uid] == a + b
  {
    var k := Key(uid, cid);
    var a, b := SplitAt(t.uids[uid], k);
    var t' := Removed(t, uid, Some(cid)).value;
    assert t.uids[uid] == a + [k] + b && t'.uids[uid] == a + b;
  }

  /** The rows `remove` deletes are always rows of the UID it was given. */
  lemma RemoveTouchesOnlyOwnRows(t: Tables, uid: string, cid: Option<string>)
    requires Valid(t)
    requires Removed(t, uid, cid).Ok?
    ensures forall k :: k in t.contents && k !in Removed(t, uid, cid).value.contents ==>
              t.contents[k].owner == uid
  {
    var t' := Removed(t, uid, cid).value;
    if uid in t.uids && !WholeUid(cid) {
      var k := Key(uid, cid.value);
      var i :| 0 <= i < |t.uids[uid]| && t.uids[uid][i] == k;
    }
  }

  /** Where the row is the given UID's own, `remove` as written and the
      corrected `remove` agree. */
  lemma RemoveAgreesOnOwnRows(t: Tables, uid: string, cid: Option<string>)
    requires Valid(t)
    requires uid in t.uids && !WholeUid(cid) ==>
               Key(uid, cid.value) in t.contents ==> t.contents[Key(uid, cid.value)].owner == uid
    ensures RemovedAsWritten(t, uid, cid) == Removed(t, uid, cid)
  {
    if uid in t.uids && !WholeUid(cid) {
      var k := Key(uid, cid.value);
      assert k in t.contents <==> k in t.uids[uid] by {
        if k in t.uids[uid] {
          var i :| 0 <= i < |t.uids[uid]| && t.uids[uid][i] == k;
        }
      }
    }
  }

  /** The tables of the counterexample: UID "a" owns the row "a#b#c" (added
      as `add("a", "b#c", ...)`) and UID "a#b" owns "a#b#x". */
  function CollidingTables(): (t: Tables)
    ensures Valid(t)
  {
    var rowA := Content("a#b#c", "svc", 1, None, None, "a");
    var rowB := Content("a#b#x", "svc", 2, None, None, "a#b");
    var t := Tables(map["a" := ["a#b#c"], "a#b" := ["a#b#x"]],
                    map["a#b#c" := rowA, "a#b#x" := rowB]);
    assert "a#b#c"[..2] == "a#";
    assert "a#b#x"[..4] == "a#b#";
    t
  }

  /** `remove("a#b", "c")` as written deletes the row of UID "a": the key
      "a#b" + "#" + "c" is that row's key. The corrected `remove` reports
      the row missing and leaves both UIDs as they were. */
  lemma RemoveAsWrittenCrossesOwners()
    ensures var t := CollidingTables();
            && RemovedAsWritten(t, "a#b", Some("c")).Ok?
            && "a#b#c" in t.contents && t.contents["a#b#c"].owner == "a"
            && "a#b#c" !in RemovedAsWritten(t, "a#b", Some("c")).value.contents
            && RemovedAsWritten(t, "a#b", Some("c")).value.uids["a"] == []
            && Removed(t, "a#b", Some("c")) == Err(NoSuchRow("a#b#c"))
  {
    var t := CollidingTables();
    assert Key("a#b", "c") == "a#b#c";
    assert "a#b#c" != "a#b#x";
    assert "a#b#c" !in t.uids["a#b"];
  }

  // ---------------------------------------------------------------------

  /** The database: the UID table (each UID with its rows' keys in stored
      order) and the Content table (rows by key). */
  class Database {
    var uids: map<string, seq<string>>
    var contents: map<string, Content>

    function State(): Tables
      reads this
    {
      Tables(uids, contents)
    }

    constructor ()
      ensures State() == Tables(map[], map[]) && Valid(State())
    {
      uids := map[];
      contents := map[];
    }

    method Add(uid: string, cid: string, service: string, queue: int) returns (error: Option<StoreError>)
      requires Valid(State())
      modifies this
      ensures Valid(State())
      ensures Added(old(State()), uid, cid, service, queue).Ok? ==>
                error == None && State() == Added(old(State()), uid, cid, service, queue).value
      ensures Added(old(State()), uid, cid, service, queue).Err? ==>
                error == Some(Added(old(State()), uid, cid, service, queue).error) && State() == old(State())
    {
      AddPreservesValid(State(), uid, cid, service, queue);
      var key := Key(uid, cid);
      if key in contents {
        return Some(DuplicateKey(key));
      }
      var entry := if uid in uids then uids[uid] else [];
      uids := uids[uid := entry + [key]];
      contents := contents[key := NewRow(uid, cid, service, queue)];
      error := None;
    }

    method Update(uid: string, cid: string, queue: int,
                  expiration: Option<int>, signedUrl: Option<string>)
      requires Valid(State())
      modifies this
      ensures Valid(State())
      ensures State() == Updated(old(State()), uid, cid, queue, expiration, signedUrl)
    {
      UpdatePreservesValid(State(), uid, cid, queue, expiration, signedUrl);
      if uid in uids && |uids[uid]| > 0 {
        var rows := uids[uid];
        var key := Key(uid, cid);
        ghost var before := contents;
        ghost var after := if key in before then before[key := Refreshed(before[key], queue, expiration, signedUrl)] else before;
        assert forall j :: 0 <= j < |rows| ==> rows[j] in before;
        var i := 0;
        while i < |rows|
          invariant 0 <= i <= |rows|
          invariant uids == old(uids)
          invariant contents == if key in rows[..i] then after else before
        {
          assert rows[..i + 1] == rows[..i] + [rows[i]];
          if rows[i] == key {
            contents := contents[key := Refreshed(contents[key], queue, expiration, signedUrl)];
          }
          i := i + 1;
        }
        assert rows[..i] == rows;
      }
    }

    method Remove(uid: string, cid: Option<string>) returns (error: Option<StoreError>)
      requires Valid(State())
      modifies this
      ensures Valid(State())
      ensures Removed(old(State()), uid, cid).Ok? ==>
                error == None && State() == Removed(old(State()), uid, cid).value
      ensures Removed(old(State()), uid, cid).Err? ==>
                error == Some(Removed(old(State()), uid, cid).error) && State() == old(State())
    {
      RemovePreservesValid(State(), uid, cid);
      error := None;
      if uid in uids {
        if cid.Some? && cid.value != "" {
          var key := Key(uid, cid.value);
          if key !in uids[uid] {
            return Some(NoSuchRow(key));
          }
          uids := uids[uid := Without(uids[uid], key)];
          contents := contents - {key};
        } else {
          contents := OthersRows(contents, uid);
          uids := uids - {uid};
        }
      }
    }
  }
}
