/** The status projection behind the dashboard: `serve`'s inner
    `get_content_list` and `check_uid`.

    Each content row is projected, at a given time and for a viewer who does
    or does not own it, to a status label, a button severity, a disabled
    flag, the URL shown and the position shown.
 */
module Dashboard {
  import opened Records
  import Store

  datatype Status = Ready | Processing | Pending | Expired

  /** The button colour: `btn-success`, `btn-info`, `btn-warning`, `btn-danger`. */
  datatype Severity = Success | Info | Warning | Danger

  /** The position column shows the label for a ready or processing row and
      the raw queue value otherwise. */
  datatype Position = Label(status: Status) | Rank(rank: int)

  /** One dashboard entry; `url` is the stored URL as the owner sees it
      (possibly none), or the empty string. */
  datatype Entry = Entry(
    owner: string,
    service: string,
    key: string,
    position: Position,
    severity: Severity,
    disabled: bool,
    status: Status,
    url: Option<string>)

  /** A row is expired once its expiration time has been reached. */
  predicate IsExpired(c: Content, now: int) {
    c.expiration.Some? && c.expiration.value <= now
  }

  /** The severity that goes with each status. */
  function SeverityOf(s: Status): Severity {
    match s
    case Ready => Success
    case Processing => Info
    case Pending => Warning
    case Expired => Danger
  }

  /** The projection of one row. Only the queue values -1 and 0 have their
      own status; every other value, negative ones included, is pending. */
  function Project(c: Content, owned: bool, now: int): (e: Entry)
    ensures e.owner == c.owner && e.service == c.service && e.key == c.key
    ensures e.status == Expired <==> IsExpired(c, now)
    ensures !IsExpired(c, now) ==>
              && (e.status == Ready <==> c.queue == -1)
              && (e.status == Processing <==> c.queue == 0)
              && (e.status == Pending <==> c.queue != -1 && c.queue != 0)
    ensures e.severity == SeverityOf(e.status)
    ensures e.position.Rank? <==> c.queue != -1 && c.queue != 0
    ensures e.position.Rank? ==> e.position.rank == c.queue
    ensures e.position == Label(Ready) <==> c.queue == -1
    ensures e.position == Label(Processing) <==> c.queue == 0
    ensures !e.disabled <==> owned && c.expiration.Some? && now < c.expiration.value
    ensures e.url == if owned && !IsExpired(c, now) then c.url else Some("")
  {
    var (status, severity, position) :=
      if c.queue == -1 then (Ready, Success, Label(Ready))
      else if c.queue == 0 then (Processing, Info, Label(Processing))
      else (Pending, Warning, Rank(c.queue));
    var disabled := !owned;
    var url := if owned then c.url else Some("");
    if c.expiration.None? then
      Entry(c.owner, c.service, c.key, position, severity, true, status, url)
    else if c.expiration.value <= now then
      Entry(c.owner, c.service, c.key, position, Danger, true, Expired, Some(""))
    else
      Entry(c.owner, c.service, c.key, position, severity, disabled, status, url)
  }

  /** Expiry overrides the queue: an expired row projects the same way
      whatever its queue value, except for the position column. */
  lemma ExpiredIgnoresQueue(c: Content, owned: bool, now: int, queue: int)
    requires IsExpired(c, now)
    ensures var e, e' := Project(c, owned, now), Project(c.(queue := queue), owned, now);
            e'.(position := e.position) == e
  {
  }

  /** Once expired, a row stays expired at every later time. */
  lemma ExpiryIsPermanent(c: Content, owned: bool, now: int, later: int)
    requires now <= later
    requires Project(c, owned, now).status == Expired
    ensures Project(c, owned, later).status == Expired
    ensures Project(c, owned, later).url == Some("") && Project(c, owned, later).disabled
  {
  }

  /** The position column never depends on the expiration or on the time. */
  lemma PositionIgnoresExpiration(c: Content, owned: bool, now: int,
                                  expiration: Option<int>, later: int)
    ensures Project(c.(expiration := expiration), owned, later).position == Project(c, owned, now).position
  {
  }

  function SeverityName(s: Severity): string {
    match s
    case Success => "success"
    case Info => "info"
    case Warning => "warning"
    case Danger => "danger"
  }

  /** The `button_class` string of an entry. */
  function ButtonClass(e: Entry): (cls: string)
    ensures var n := |SeverityName(e.severity)|;
            && |cls| == 26 + n + (if e.disabled then 8 else 0)
            && cls[..18] == "btn btn-block btn-"
            && cls[18..18 + n] == SeverityName(e.severity)
            && cls[18 + n..26 + n] == " btn-sm "
            && cls[26 + n..] == (if e.disabled then "disabled" else "")
  {
    "btn btn-block btn-" + SeverityName(e.severity) + " btn-sm " + (if e.disabled then "disabled" else "")
  }

  /** An expired row's button is the disabled danger button, whoever looks. */
  lemma ExpiredButtonClass(c: Content, owned: bool, now: int)
    requires IsExpired(c, now)
    ensures ButtonClass(Project(c, owned, now)) == "btn btn-block btn-danger btn-sm disabled"
  {
  }

  /** An owner's ready row that has not expired gets the enabled success button. */
  lemma ReadyButtonClass(c: Content, now: int)
    requires c.queue == -1 && c.expiration.Some? && now < c.expiration.value
    ensures ButtonClass(Project(c, true, now)) == "btn btn-block btn-success btn-sm "
  {
  }

  /** The button class tells the severity and the disabled flag apart. */
  lemma ButtonClassDistinguishes(e1: Entry, e2: Entry)
    requires ButtonClass(e1) == ButtonClass(e2)
    ensures e1.severity == e2.severity && e1.disabled == e2.disabled
  {
    var c1, c2 := ButtonClass(e1), ButtonClass(e2);
    var n1, n2 := SeverityName(e1.severity), SeverityName(e2.severity);
    assert c1[18] == n1[0] && c2[18] == n2[0];
    assert c1[|c1| - 1] == (if e1.disabled then 'd' else ' ');
    assert c2[|c2| - 1] == (if e2.disabled then 'd' else ' ');
  }

  /** `check_uid`: whether the UID has a record. */
  function CheckUid(t: Tables, uid: string): (found: bool)
    requires Valid(t)
    ensures found <==> QueryOneUid(t, uid).Some?
  {
    uid in t.uids
  }

  /** `get_content_list`: one entry per row of the UID, in stored order;
      nothing for an unknown UID or one without rows. The ownership test it
      makes never fails, since the rows it walks are the UID's own, so each
      entry is the owner's projection. */
  function ContentList(t: Tables, uid: string, now: int): (list: seq<Entry>)
    requires Valid(t)
    ensures |list| == |Store.Rows(t, uid)|
    ensures forall i :: 0 <= i < |list| ==> list[i] == Project(t.contents[t.uids[uid][i]], true, now)
  {
    if uid in t.uids && |t.uids[uid]| > 0 then
      var ks := t.uids[uid];
      seq(|ks|, i requires 0 <= i < |ks| => var c := t.contents[ks[i]]; Project(c, c.owner == uid, now))
    else
      []
  }

  /** Each entry of the list projects the matching row of the UID record, in
      order, as its owner sees it. */
  lemma ContentListIsOwnersView(t: Tables, uid: string, now: int, i: int)
    requires Valid(t)
    requires 0 <= i < |ContentList(t, uid, now)|
    ensures ContentList(t, uid, now)[i] == Project(QueryOneUid(t, uid).value[i], true, now)
  {
  }

  /** A successful `add` appends the new row's entry to its UID's list: not
      expired, disabled (no expiration yet), and with the queue's status. */
  lemma AddAppendsEntry(t: Tables, uid: string, cid: string, service: string, queue: int, now: int)
    requires Valid(t)
    requires Store.Added(t, uid, cid, service, queue).Ok?
    ensures Valid(Store.Added(t, uid, cid, service, queue).value)
    ensures ContentList(Store.Added(t, uid, cid, service, queue).value, uid, now)
            == ContentList(t, uid, now) + [Project(Store.NewRow(uid, cid, service, queue), true, now)]
    ensures Project(Store.NewRow(uid, cid, service, queue), true, now).disabled
  {
    Store.AddPreservesValid(t, uid, cid, service, queue);
    var t' := Store.Added(t, uid, cid, service, queue).value;
    var before, after := ContentList(t, uid, now), ContentList(t', uid, now);
    var row := Store.NewRow(uid, cid, service, queue);
    var n := |Store.Rows(t, uid)|;
    assert |after| == n + 1;
    forall i | 0 <= i < n + 1
      ensures after[i] == (before + [Project(row, true, now)])[i]
    {
      if i < n {
        assert t'.uids[uid][i] == t.uids[uid][i];
        assert t'.contents[t.uids[uid][i]] == t.contents[t.uids[uid][i]];
      } else {
        assert t'.uids[uid][i] == Key(uid, cid);
      }
    }
  }

  /** A row updated to ready (-1) with a future expiration shows its URL to
      its owner, enabled; from its expiration time on it shows as expired. */
  lemma ReadyUntilExpiry(t: Tables, uid: string, cid: string, expiration: int, url: string, now: int)
    requires Valid(t)
    requires uid in t.uids && Key(uid, cid) in t.uids[uid]
    ensures var t' := Store.Updated(t, uid, cid, -1, Some(expiration), Some(url));
            var e := Project(QueryOneContent(t', uid, cid).value, true, now);
            && (now < expiration ==> e.status == Ready && e.severity == Success && !e.disabled && e.url == Some(url))
            && (expiration <= now ==> e.status == Expired && e.severity == Danger && e.disabled && e.url == Some(""))
  {
    Store.UpdateThenQuery(t, uid, cid, -1, Some(expiration), Some(url));
  }

  /** The dashboard list, built row by row as `get_content_list` does. */
  method GetContentList(db: Store.Database, uid: string, now: int) returns (list: seq<Entry>)
    requires Valid(db.State())
    ensures list == ContentList(db.State(), uid, now)
  {
    list := [];
    if uid in db.uids && |db.uids[uid]| > 0 {
      var rows := db.uids[uid];
      var i := 0;
      while i < |rows|
        invariant 0 <= i <= |rows|
        invariant |list| == i
        invariant forall j :: 0 <= j < i ==> list[j] == ContentList(db.State(), uid, now)[j]
      {
        var c := db.contents[rows[i]];
        list := list + [Project(c, c.owner == uid, now)];
        i := i + 1;
      }
    }
  }
}
