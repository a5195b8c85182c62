# content-server: the content store and its status projection

This project models the core of `content_server`. That core has two parts.

The first is the content store (`Database`). It keeps a table of UID records. Each record owns an ordered list of Content rows. A row's primary key is the composite string `uid#content_id`. It also carries a service name, a raw `queue` integer, an optional expiration time and an optional signed URL. `add`, `update` and `remove` change the store. `query_one_uid` and `query_one_content` read it.

The second is the dashboard projection (`get_content_list`, `check_uid`). It turns each row of a UID, at a given time, into a status label ("Ready", "Processing", "Pending", "Expired"), a button severity, a disabled flag, the URL shown and the position shown.

Files:

- `records.dfy` (module `Records`): the row shape, the two tables, the composite key, the invariant `Valid` that ties the tables together, and the two lookups.
- `store.dfy` (module `Store`): `add`, `update` and `remove` as functions on the tables (`Added`, `Updated`, `Removed`), with lemmas about them. The class `Database` holds the two tables as fields (`uids: map<string, seq<string>>`, `contents: map<string, Content>`). Its methods `Add`, `Update` and `Remove` change those fields in place. `Update` walks the UID's rows in a loop, as the source does. Each method ensures that the new state is exactly what the matching function gives.
- `dashboard.dfy` (module `Dashboard`): the projection of one row (`Project`), the `button_class` string, `check_uid`, the list as a function (`ContentList`), and the loop that builds it (`GetContentList`).

How the model represents the source:

- The store is two maps that mirror the two SQL tables. The UID table maps each UID to its rows' keys in stored order. The Content table maps each key to its row, and each row records its owner.
- `query_one_content` looks a key up in the whole Content table, not only under the given UID, just as the SQL query does.
- Times are integers. The current time is a parameter.
- Errors the source raises are results, not preconditions, and the store is left unchanged:
  - `add` with a key already present fails with `DuplicateKey`. This is the primary-key violation at commit.
  - `remove` of a row that is not there fails with `NoSuchRow`. In the source this is the exception from deleting the `None` that the lookup returns when no row has the key `uid#cid`. The corrected remove that `Database.Remove` follows also fails when the key names a row of another UID, that is, whenever the given UID does not list `uid#cid` (see "## Findings").
- `remove` with no content id, or with the empty string, removes the whole UID. This follows Python's truth test on `content_id`.
- Removing the last row of a UID keeps the UID record. The code deletes only the row.
- The list's ownership test (`c.uid != uid`) is modelled by comparing the row's owner with the UID. In the model it never fires, because a row's owner is the exact UID string that lists it, so `get_content_list` walks only the UID's own rows. `ContentList` states this: every entry is the owner's projection. This holds in the source only for UIDs that are not different spellings of the same integer (see "## Left out").
- The position column keeps the label or rank derived from the queue even when the row shows as Expired.
- The URL an owner sees is the stored URL. That URL may be absent (`None` in the source), so it is an `Option`.

## Model

| member | source | states |
|---|---|---|
| `Records.Key` | content_server/__init__.py:66 | the row key is the UID, then '#', then the content id (its length and its three slices) |
| `Records.KeyInjectiveForUid` | content_server/__init__.py:66 | for a fixed UID, different content ids give different row keys |
| `Records.KeyCollides` | content_server/__init__.py:66 | two different (uid, content id) pairs can give the same key: ("a", "b#c") and ("a#b", "c") |
| `Records.QueryOneUid` | content_server/__init__.py:95-97 | gives a record exactly when the UID exists; that record holds the stored rows the UID lists, in stored order, all owned by it |
| `Records.QueryOneContent` | content_server/__init__.py:99-101 | finds a row exactly when the key `uid#cid` is in the Content table; the row is the stored row of that key and is listed by its owner |
| `Records.QueryFindsListedRow` | content_server/__init__.py:99-101 | a row listed under a UID is what the lookup returns for that UID, and it is owned by that UID |
| `Store.Added` | content_server/__init__.py:61-68 | fails iff the key is already taken; otherwise the UID exists, its list gains the new key at the end, and every other UID and row is unchanged |
| `Store.AddPreservesValid` | content_server/__init__.py:61-68 | a successful add keeps the two tables consistent |
| `Store.AddThenQuery` | content_server/__init__.py:61-68 | after add, the UID exists and `query_one_content(uid, cid)` returns the row with key `uid#cid`, the given service and queue, and no expiration or URL |
| `Store.AddGrowsOneUid` | content_server/__init__.py:63-66 | a new UID record is created only when none exists; that UID's rows grow by exactly one and the earlier rows keep their order |
| `Store.Database.Add` | content_server/__init__.py:61-68 | the new tables are those given by `Added`, or unchanged on error, and they stay consistent |
| `Store.Refreshed` | content_server/__init__.py:76-78 | update sets queue, expiration and URL to the given values, a missing value included, and keeps key, service and owner |
| `Store.Updated` | content_server/__init__.py:70-79 | only the row `uid#cid` can change; an unknown UID, a UID with no rows, or a row it does not list leaves the store unchanged |
| `Store.UpdatePreservesValid` | content_server/__init__.py:70-79 | update keeps the tables consistent |
| `Store.UpdateThenQuery` | content_server/__init__.py:74-78 | after update, the lookup returns the row with the new status fields and the same owner |
| `Store.UpdateIdempotent` | content_server/__init__.py:70-79 | repeating an update changes nothing more |
| `Store.Database.Update` | content_server/__init__.py:70-79 | the loop over the UID's rows leaves exactly the tables given by `Updated` |
| `Store.RemovedAsWritten` | content_server/__init__.py:81-89 | remove as written: an unknown UID is a no-op; no content id removes the UID and its rows; with a content id it fails iff no row anywhere in the Content table has the key `uid#cid`, and otherwise deletes exactly that row from the table and from its owner's list, whichever UID owns it |
| `Store.RemoveAsWrittenPreservesValid` | content_server/__init__.py:81-89 | remove as written keeps the tables consistent |
| `Store.Removed` | content_server/__init__.py:81-89 | unknown UID: no-op; no content id: the UID goes; with a content id: error iff the UID does not list `uid#cid`; other UIDs are untouched and no row changes |
| `Store.RemovePreservesValid` | content_server/__init__.py:81-89 | remove keeps the tables consistent |
| `Store.RemoveUidCascades` | content_server/__init__.py:27 | removing a UID deletes exactly the rows it listed |
| `Store.RemoveRowKeepsRest` | content_server/__init__.py:85-86 | removing one row keeps the UID and the rest of its rows in their order, and deletes exactly that key |
| `Store.RemoveTouchesOnlyOwnRows` | content_server/__init__.py:81-89 | every row that remove deletes belongs to the UID it was given |
| `Store.RemoveAgreesOnOwnRows` | content_server/__init__.py:85-86 | when the key found is the given UID's own row, the as-written and corrected removes agree |
| `Store.RemoveAsWrittenCrossesOwners` | content_server/__init__.py:86 | on consistent tables, as-written `remove("a#b", "c")` deletes the row of UID "a"; the corrected remove reports it missing |
| `Store.Database.Remove` | content_server/__init__.py:81-89 | the new tables are those given by `Removed`, or unchanged on error, and they stay consistent |
| `Dashboard.Project` | content_server/__init__.py:113-134 | queue -1 gives Ready/success with position "Ready", 0 gives Processing/info with position "Processing", any other value gives Pending/warning with the raw value as position; an expiration at or before now gives Expired/danger, disabled, with an empty URL, whatever the queue; enabled iff owned and the expiration lies in the future; the URL is the stored one only for an owner of a row that has not expired |
| `Dashboard.ExpiredIgnoresQueue` | content_server/__init__.py:130-134 | an expired row projects the same way for every queue value, apart from the position column |
| `Dashboard.ExpiryIsPermanent` | content_server/__init__.py:130 | a row that shows as Expired at one time also does at every later time, disabled and with an empty URL |
| `Dashboard.PositionIgnoresExpiration` | content_server/__init__.py:113-122 | the position column depends only on the queue, not on the expiration or the time |
| `Dashboard.ButtonClass` | content_server/__init__.py:142 | the class string is "btn btn-block btn-", then the severity word (success, info, warning, danger), then " btn-sm ", then "disabled" exactly when the button is disabled |
| `Dashboard.ExpiredButtonClass` | content_server/__init__.py:130-142 | an expired row's button class is "btn btn-block btn-danger btn-sm disabled", for any viewer |
| `Dashboard.ReadyButtonClass` | content_server/__init__.py:113-142 | an owner's ready row whose expiration lies in the future gets "btn btn-block btn-success btn-sm ", with no "disabled" |
| `Dashboard.ButtonClassDistinguishes` | content_server/__init__.py:142 | equal class strings mean equal severity and equal disabled flag |
| `Dashboard.CheckUid` | content_server/__init__.py:151-155 | true iff `query_one_uid` finds the UID |
| `Dashboard.ContentList` | content_server/__init__.py:108-149 | one entry per row of the UID, in stored order, each the owner's projection of that row; empty for an unknown UID |
| `Dashboard.ContentListIsOwnersView` | content_server/__init__.py:110-125 | entry i is the owner's projection of row i of the record that `query_one_uid` returns |
| `Dashboard.AddAppendsEntry` | content_server/__init__.py:66 | a successful add appends the new row's entry to the end of its UID's list, and that entry is disabled |
| `Dashboard.ReadyUntilExpiry` | content_server/__init__.py:113-134 | a row updated to -1 with expiration x and a URL shows Ready, success, enabled and the URL before x, and from x on shows Expired, danger, disabled, with an empty URL |
| `Dashboard.GetContentList` | content_server/__init__.py:108-149 | the loop over the rows builds exactly `ContentList` |

## Findings

| source | as written | input that shows it | evidently intended | confidence | as-written member | corrected member |
|---|---|---|---|---|---|---|
| content_server/__init__.py:86 | `remove(uid, content_id)` deletes the row `query_one_content` finds by the key `uid#content_id` anywhere in the Content table. A '#' inside a UID or content id makes that key name another UID's row. | UID "a" owns row "a#b#c" (from `add("a", "b#c", …)`), UID "a#b" exists; `remove("a#b", "c")` deletes "a#b#c", the row of UID "a" | remove only a row of the UID it is given; any other row is missing | medium (not executed) | `Store.RemovedAsWritten`, `Store.RemoveAsWrittenCrossesOwners` | `Store.Removed`, `Store.RemoveTouchesOnlyOwnRows` |

## Left out

- Flask routes, session handling, template rendering and `app.run` (content_server/__init__.py:157-182, and app.py) are HTTP and UI plumbing.
- Engine setup, `Database.create` (directory creation, `drop_all`, `create_all`) and `query_all_uid` are persistence plumbing. The store is an in-memory pair of maps that starts empty.
- The `print` logging in `add`, `update`, `remove` and `check_uid` is not modelled.
- The `creation` timestamp (a wall-clock default), the `date` and `expiration` display strings built with `strftime`, and the one-element tuple at line 135 are not modelled. They are presentation formatting.
- `Store.Database.Add`: a key collision is modelled as a failed commit that leaves the store unchanged. The model does not capture the failed SQL session the source leaves behind.
- The relationship `UID.contents` declares no ordering. The model keeps rows in insertion order, which is the order SQLite gives for a plain table scan in practice but does not guarantee.
- `Store.Database.Remove`: the stateful remove follows the corrected `Removed`. On a key `uid#cid` that names another UID's row it reports `NoSuchRow` and changes nothing, where the source deletes that row (content_server/__init__.py:86). `Store.RemovedAsWritten` models what the source does there.
- `Dashboard.ContentList`, `Dashboard.GetContentList`: the source reads the clock (`datetime.now()`) once per row inside its loop. The model uses one time `now` for the whole list, so it does not capture a list whose rows are judged at slightly different times.
- `Dashboard.ContentList`, `Store.RemoveUidCascades`: the model treats a row's foreign key as the exact UID string. In the source the column `content_uid` is declared `Integer` while it refers to the text column `uid.uid` (content_server/__init__.py:26, 41). Under SQLite's type affinity, UIDs such as "7" and "07" are both stored there as the integer 7. The relationship at line 27 then loads, and cascades to, the rows of both UIDs. So in the source `get_content_list("7")` also lists the rows of "07", and `remove("7")` also deletes them. The model does not capture this merging.
- Column widths (`String(80)`, `String(200)`) and the integer width of `queue` are not enforced. Strings and integers are unbounded.
- Concurrency between callers of the store is not modelled. Each operation is one atomic step.
- The example gRPC service and tests/basic_test.py are not modelled. They use a `Database` and `ContentServer` API (`queue_get_pos`, duration strings, `queue_pos`) that the package does not define. Queue renumbering and duration parsing are absent from the package and are not modelled.
