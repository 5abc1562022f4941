/** The write side of db.py: the three tables as maps keyed by their unique
    id, each `cursor.execute` of an upsert as an update of one map, and the
    two inserters used as context managers. */
module Db {
  import opened Common

  // ---------------------------------------------------------------------
  // Records as decrypted, rows as stored

  /** A decrypted bookmark; `None` stands for a key the JSON object lacks. */
  datatype BookmarkRecord = BookmarkRecord(
    id: Option<string>, bookmarkType: Option<string>, title: Option<string>,
    dateAdded: Option<int>, deleted: Option<bool>, modified: Option<real>,
    parentid: Option<string>)

  /** A `bookmark_entry` row (`date_added` in seconds). */
  datatype BookmarkRow = BookmarkRow(
    bookmarkType: Option<string>, title: Option<string>, dateAdded: Option<int>,
    deleted: bool, modified: Option<real>, parentId: Option<string>)

  datatype Visit = Visit(date: int)

  /** A decrypted history entry. */
  datatype HistoryRecord = HistoryRecord(
    id: Option<string>, title: Option<string>, histUri: Option<string>,
    visits: Option<seq<Visit>>, deleted: Option<bool>, modified: Option<real>)

  /** A `history` row (`last_visited` in seconds). */
  datatype HistoryRow = HistoryRow(
    lastVisited: Option<int>, visitCount: Option<int>, title: Option<string>,
    url: Option<string>, deleted: bool, modified: Option<real>)

  /** The dictionary passed to `insert_url_text`; `None` stands for a key
      it lacks. */
  datatype UrlTextRecord = UrlTextRecord(
    historyId: Option<string>, rawText: Option<string>, processedText: Option<string>,
    title: Option<string>, headers: Option<string>, httpStatus: Option<int>)

  /** A `history_url_text` row. */
  datatype UrlTextRow = UrlTextRow(
    rawText: Option<string>, processedText: Option<string>, title: Option<string>,
    headers: Option<string>, httpStatus: int)

  /** The connection's tables. */
  class Database {
    var bookmarkEntry: map<string, BookmarkRow>
    var history: map<string, HistoryRow>
    var historyUrlText: map<string, UrlTextRow>

    /** `login(config)`: a connection to a database whose tables already
        hold the rows given; connecting changes none of them. */
    constructor (bookmarkEntry: map<string, BookmarkRow>, history: map<string, HistoryRow>,
                 historyUrlText: map<string, UrlTextRow>)
      ensures this.bookmarkEntry == bookmarkEntry && this.history == history
      ensures this.historyUrlText == historyUrlText
    {
      this.bookmarkEntry, this.history, this.historyUrlText := bookmarkEntry, history, historyUrlText;
    }

    /** `insert_url_text(conn, url_text)` on the connection's table. */
    method InsertUrlText(t: UrlTextRecord) returns (err: Option<Error>)
      modifies this`historyUrlText
      ensures UrlTextInsert(old(historyUrlText), t).Err? ==>
                err == Some(MissingKey) && historyUrlText == old(historyUrlText)
      ensures UrlTextInsert(old(historyUrlText), t).Ok? ==>
                err.None? && historyUrlText == UrlTextInsert(old(historyUrlText), t).value
    {
      var r := UrlTextInsert(historyUrlText, t);
      if r.Err? {
        return Some(MissingKey);
      }
      historyUrlText := r.value;
      return None;
    }
  }

  /** The upsert of `insert_url_text`: `raw_text`, `processed_text`, `title`
      and `headers` default to NULL, but `history_id` and `http_status` have
      no default, so a dictionary lacking either raises KeyError before
      anything is written. On conflict every column but the key is
      overwritten. */
  function UrlTextInsert(table: map<string, UrlTextRow>, t: UrlTextRecord): (r: Result<map<string, UrlTextRow>>)
    ensures r.Err? <==> t.historyId.None? || t.httpStatus.None?
    ensures r.Err? ==> r.error == MissingKey
    ensures r.Ok? ==> r.value.Keys == table.Keys + {t.historyId.value}
    ensures r.Ok? ==> r.value[t.historyId.value] == UrlTextRow(t.rawText, t.processedText, t.title, t.headers, t.httpStatus.value)
    ensures r.Ok? ==> forall k :: k in table && k != t.historyId.value ==> r.value[k] == table[k]
  {
    if t.historyId.None? || t.httpStatus.None? then Err(MissingKey)
    else Ok(table[t.historyId.value := UrlTextRow(t.rawText, t.processedText, t.title, t.headers, t.httpStatus.value)])
  }

  /** Storing the same page twice leaves the table as storing it once. */
  lemma UrlTextInsertIdempotent(table: map<string, UrlTextRow>, t: UrlTextRecord)
    requires UrlTextInsert(table, t).Ok?
    ensures UrlTextInsert(UrlTextInsert(table, t).value, t) == UrlTextInsert(table, t)
  {
    var once := UrlTextInsert(table, t).value;
    assert UrlTextInsert(once, t).value == once;
  }

  /** The dictionary page_fetcher.py builds for a page it fetched with
      status 200: it has no `http_status` key. */
  function FetchedPageAsWritten(historyId: string, raw: string, processed: string, title: Option<string>,
                                headers: string): UrlTextRecord
  {
    UrlTextRecord(Some(historyId), Some(raw), Some(processed), title, Some(headers), None)
  }

  /** As written, every page the fetcher stores is refused with KeyError,
      whatever the table holds. */
  lemma FetchedPageRefused(table: map<string, UrlTextRow>, historyId: string, raw: string, processed: string,
                           title: Option<string>, headers: string)
    ensures UrlTextInsert(table, FetchedPageAsWritten(historyId, raw, processed, title, headers)) == Err(MissingKey)
  {
  }

  /** The dictionary with the response's status code under `http_status`,
      the column the statement fills. */
  function FetchedPage(historyId: string, raw: string, processed: string, title: Option<string>, headers: string,
                       status: int): UrlTextRecord
  {
    UrlTextRecord(Some(historyId), Some(raw), Some(processed), title, Some(headers), Some(status))
  }

  /** With the status supplied, the page is stored under its history id and
      no other row changes. */
  lemma FetchedPageStored(table: map<string, UrlTextRow>, historyId: string, raw: string, processed: string,
                          title: Option<string>, headers: string, status: int)
    ensures var r := UrlTextInsert(table, FetchedPage(historyId, raw, processed, title, headers, status));
            && r.Ok? && r.value.Keys == table.Keys + {historyId}
            && r.value[historyId] == UrlTextRow(Some(raw), Some(processed), title, Some(headers), status)
            && forall k :: k in table && k != historyId ==> r.value[k] == table[k]
  {
  }

  // ---------------------------------------------------------------------
  // Bookmarks

  /** `TO_TIMESTAMP(%(dateAdded)s/1000)`: milliseconds to seconds with
      PostgreSQL's truncating integer division; NULL stays NULL. */
  function MillisToSeconds(ms: Option<int>): (s: Option<int>)
    ensures s.Some? <==> ms.Some?
    ensures ms.Some? && ms.value >= 0 ==> s.value * 1000 <= ms.value < (s.value + 1) * 1000
    ensures ms.Some? && ms.value < 0 ==> (s.value - 1) * 1000 < ms.value <= s.value * 1000
  {
    if ms.Some? then Some(TruncDiv(ms.value, 1000)) else None
  }

  /** The bookmark upsert of `BookmarkInserter.insert` for a record with an
      id: a new id gets type, title, date added, deleted (default false) and
      modified; an existing id changes only title and modified. */
  function UpsertBookmark(table: map<string, BookmarkRow>, id: string, rec: BookmarkRecord): (t: map<string, BookmarkRow>)
    ensures t.Keys == table.Keys + {id}
    ensures id !in table ==> t[id] == BookmarkRow(rec.bookmarkType, rec.title, MillisToSeconds(rec.dateAdded),
                                                  rec.deleted.Some? && rec.deleted.value, rec.modified, None)
    ensures id in table ==> t[id].title == rec.title && t[id].modified == rec.modified
    ensures id in table ==> && t[id].bookmarkType == table[id].bookmarkType && t[id].dateAdded == table[id].dateAdded
                            && t[id].deleted == table[id].deleted && t[id].parentId == table[id].parentId
    ensures forall k :: k in table && k != id ==> t[k] == table[k]
  {
    if id in table then table[id := table[id].(title := rec.title, modified := rec.modified)]
    else table[id := BookmarkRow(rec.bookmarkType, rec.title, MillisToSeconds(rec.dateAdded),
                                 if rec.deleted.Some? then rec.deleted.value else false, rec.modified, None)]
  }

  /** Upserting the same record twice is upserting it once. */
  lemma UpsertBookmarkIdempotent(table: map<string, BookmarkRow>, id: string, rec: BookmarkRecord)
    ensures UpsertBookmark(UpsertBookmark(table, id, rec), id, rec) == UpsertBookmark(table, id, rec)
  {
    var once := UpsertBookmark(table, id, rec);
    var twice := UpsertBookmark(once, id, rec);
    assert twice[id] == once[id];
  }

  /** The root folders, whose ids are never stored as a parent. */
  predicate IsRootSentinel(parent: string)
  {
    parent == "places" || parent == "unfiled"
  }

  /** The (child, parent) link `insert` records for a record whose upsert
      succeeded. */
  function Link(id: string, rec: BookmarkRecord): (l: Option<(string, string)>)
    ensures l.Some? <==> rec.parentid.Some? && !IsRootSentinel(rec.parentid.value)
    ensures l.Some? ==> l.value == (id, rec.parentid.value)
  {
    if rec.parentid.Some? && !IsRootSentinel(rec.parentid.value) then Some((id, rec.parentid.value)) else None
  }

  /** The names of the parameters `self.parents` holds: `child_{i}` and
      `parent_{i}`. */
  datatype ParamKey = Child(i: nat) | Parent(i: nat)

  /** `range(0, len(self.parents), 2)` as the pair of parameters each SELECT
      of the parent update names. */
  function SelectKeys(size: nat): (r: seq<(ParamKey, ParamKey)>)
    ensures |r| == (size + 1) / 2
    ensures forall j :: 0 <= j < |r| ==> r[j] == (Child(2 * j), Parent(2 * j)) && 2 * j < size
  {
    seq((size + 1) / 2, j requires 0 <= j < (size + 1) / 2 => (Child(2 * j), Parent(2 * j)))
  }

  /** The statement `UPDATE … SET parent_id = parentid FROM bookmark_parent
      WHERE bookmark_entry_id = childid` for one (child, parent) row; rows
      without a matching child are untouched. */
  function SetParent(table: map<string, BookmarkRow>, link: (string, string)): (t: map<string, BookmarkRow>)
    ensures t.Keys == table.Keys
    ensures link.0 in table ==> t[link.0] == table[link.0].(parentId := Some(link.1))
    ensures forall k :: k in table && k != link.0 ==> t[k] == table[k]
  {
    if link.0 in table then table[link.0 := table[link.0].(parentId := Some(link.1))] else table
  }

  /** The batched parent update over all recorded links. */
  function ApplyParents(table: map<string, BookmarkRow>, links: seq<(string, string)>): map<string, BookmarkRow>
    decreases |links|
  {
    if links == [] then table else ApplyParents(SetParent(table, links[0]), links[1..])
  }

  function Children(links: seq<(string, string)>): set<string>
  {
    set j | 0 <= j < |links| :: links[j].0
  }

  /** The parent update keeps the set of rows and every column but
      `parent_id`; a recorded child gets its recorded parent (the last one
      recorded when it has several); every other row is unchanged. */
  lemma {:induction false} ApplyParentsResult(table: map<string, BookmarkRow>, links: seq<(string, string)>)
    ensures ApplyParents(table, links).Keys == table.Keys
    ensures forall k :: k in table ==>
              ApplyParents(table, links)[k] == table[k].(parentId := ApplyParents(table, links)[k].parentId)
    ensures forall k :: k in table && k !in Children(links) ==> ApplyParents(table, links)[k] == table[k]
    ensures forall j :: 0 <= j < |links| && links[j].0 in table && links[j].0 !in Children(links[j + 1..]) ==>
              ApplyParents(table, links)[links[j].0].parentId == Some(links[j].1)
    decreases |links|
  {
    if links != [] {
      var t' := SetParent(table, links[0]);
      ApplyParentsResult(t', links[1..]);
      var r := ApplyParents(t', links[1..]);
      assert Children(links) == {links[0].0} + Children(links[1..]) by {
        forall c | c in Children(links) ensures c in {links[0].0} + Children(links[1..]) {
          var j :| 0 <= j < |links| && links[j].0 == c;
          if j > 0 { assert links[1..][j - 1].0 == c; }
        }
      }
      forall j | 0 <= j < |links| && links[j].0 in table && links[j].0 !in Children(links[j + 1..])
        ensures r[links[j].0].parentId == Some(links[j].1)
      {
        if j > 0 {
          assert links[1..][j - 1] == links[j];
          assert links[1..][j - 1 + 1..] == links[j + 1..];
        } else {
          assert links[0].0 !in Children(links[1..]);
        }
      }
    }
  }

  /** `parents` holds the links in order, link `j` under `child_{2j}` and
      `parent_{2j}`, and nothing else. */
  predicate ParamsHold(parents: map<ParamKey, string>, links: seq<(string, string)>)
  {
    && |parents| == 2 * |links|
    && (forall k :: k in parents ==> k.i < |parents|)
    && (forall j :: 0 <= j < |links| ==>
          && Child(2 * j) in parents && Parent(2 * j) in parents
          && parents[Child(2 * j)] == links[j].0 && parents[Parent(2 * j)] == links[j].1)
  }

  /** Recording a link under the next free index keeps the layout. */
  lemma ParamsAppend(parents: map<ParamKey, string>, links: seq<(string, string)>, child: string, parent: string)
    requires ParamsHold(parents, links)
    ensures var i := |parents|;
            ParamsHold(parents[Child(i) := child][Parent(i) := parent], links + [(child, parent)])
  {
    var i := |parents|;
    var p' := parents[Child(i) := child][Parent(i) := parent];
    var l' := links + [(child, parent)];
    ParamsGrow(parents, child, parent);
    forall j | 0 <= j < |l'|
      ensures Child(2 * j) in p' && Parent(2 * j) in p'
      ensures p'[Child(2 * j)] == l'[j].0 && p'[Parent(2 * j)] == l'[j].1
    {
      if j < |links| {
        assert l'[j] == links[j];
        assert Child(2 * j) in parents && Parent(2 * j) in parents;
      }
    }
  }

  /** Two keys under the next free index add two entries and keep every
      index below the size. */
  lemma ParamsGrow(parents: map<ParamKey, string>, child: string, parent: string)
    requires forall k :: k in parents ==> k.i < |parents|
    ensures var i := |parents|;
            var p' := parents[Child(i) := child][Parent(i) := parent];
            |p'| == i + 2 && forall k :: k in p' ==> k.i < |p'|
  {
    var i := |parents|;
    assert Child(i) !in parents && Parent(i) !in parents;
    var p' := parents[Child(i) := child][Parent(i) := parent];
    assert p'.Keys == parents.Keys + {Child(i), Parent(i)};
    forall k | k in p' ensures k.i < i + 2 {
      if k in parents { assert k.i < i; }
    }
  }

  /** `BookmarkInserter`: `parents` holds the deferred links under keys
      `child_{i}`/`parent_{i}`, `i` even; `links` is the same content as a
      sequence, `cursorOpen` says whether the session is between
      `__enter__` and `__exit__`. */
  class BookmarkInserter {
    const conn: Database
    var parents: map<ParamKey, string>
    var cursorOpen: bool
    ghost var links: seq<(string, string)>

    ghost predicate Valid()
      reads this
    {
      ParamsHold(parents, links)
    }

    constructor (conn: Database)
      ensures this.conn == conn && Valid() && !cursorOpen && links == []
    {
      this.conn := conn;
      parents, cursorOpen, links := map[], false, [];
    }

    /** `__enter__`: empty `parents`, open a cursor. */
    method Enter()
      modifies this
      ensures Valid() && cursorOpen && parents == map[] && links == []
    {
      parents, cursorOpen, links := map[], true, [];
    }

    /** `insert(bookmark)`: upsert the row, then record its link. A record
        without an id raises KeyError from the statement, before anything
        is recorded. */
    method Insert(rec: BookmarkRecord) returns (err: Option<Error>)
      requires Valid() && cursorOpen
      modifies this`parents, this`links, conn`bookmarkEntry
      ensures Valid() && cursorOpen
      ensures rec.id.None? ==> err == Some(MissingKey) && conn.bookmarkEntry == old(conn.bookmarkEntry) &&
                               parents == old(parents) && links == old(links)
      ensures rec.id.Some? ==> err.None? && conn.bookmarkEntry == UpsertBookmark(old(conn.bookmarkEntry), rec.id.value, rec)
      ensures rec.id.Some? && Link(rec.id.value, rec).Some? ==> links == old(links) + [Link(rec.id.value, rec).value]
      ensures rec.id.Some? && Link(rec.id.value, rec).None? ==> parents == old(parents) && links == old(links)
    {
      if rec.id.None? {
        return Some(MissingKey);
      }
      var id := rec.id.value;
      conn.bookmarkEntry := UpsertBookmark(conn.bookmarkEntry, id, rec);
      var i := |parents|;
      if rec.parentid.Some? && !IsRootSentinel(rec.parentid.value) {
        ParamsAppend(parents, links, id, rec.parentid.value);
        parents := parents[Child(i) := id][Parent(i) := rec.parentid.value];
        links := links + [(id, rec.parentid.value)];
      }
      return None;
    }

    /** `insert_bookmark_parents()`: nothing runs when `parents` is empty;
        otherwise one statement with one SELECT per recorded pair, whose
        parameter names all exist in `parents`, applies every link. */
    method InsertBookmarkParents() returns (selects: seq<(ParamKey, ParamKey)>)
      requires Valid()
      modifies conn`bookmarkEntry
      ensures |parents| == 0 ==> selects == [] && conn.bookmarkEntry == old(conn.bookmarkEntry)
      ensures |parents| > 0 ==> selects == SelectKeys(|parents|)
      ensures |selects| == |links|
      ensures forall j :: 0 <= j < |selects| ==>
                selects[j].0 in parents && selects[j].1 in parents &&
                (parents[selects[j].0], parents[selects[j].1]) == links[j]
      ensures conn.bookmarkEntry == ApplyParents(old(conn.bookmarkEntry), links)
    {
      if |parents| < 1 {
        return [];
      }
      selects := SelectKeys(|parents|);
      var m := parents;
      assert |selects| == |links|;
      var rows := seq(|selects|, j requires 0 <= j < |selects| => (m[selects[j].0], m[selects[j].1]));
      assert rows == links;
      conn.bookmarkEntry := ApplyParents(conn.bookmarkEntry, rows);
    }

    /** `__exit__`, on a normal or an exceptional exit alike: the parent
        update, then the cursor is closed. */
    method Exit()
      requires Valid() && cursorOpen
      modifies this`cursorOpen, conn`bookmarkEntry
      ensures Valid() && !cursorOpen
      ensures conn.bookmarkEntry == ApplyParents(old(conn.bookmarkEntry), links)
    {
      var _ := InsertBookmarkParents();
      cursorOpen := false;
    }
  }

  /** How many leading records have an id: the session stops at the first
      that does not. */
  function LeadingWithId(recs: seq<BookmarkRecord>): (n: nat)
    ensures n <= |recs|
    ensures forall j :: 0 <= j < n ==> recs[j].id.Some?
    ensures n < |recs| ==> recs[n].id.None?
  {
    if recs == [] || recs[0].id.None? then 0 else 1 + LeadingWithId(recs[1..])
  }

  /** The upserts of a sequence of records that all have ids, in order. */
  function UpsertAll(table: map<string, BookmarkRow>, recs: seq<BookmarkRecord>): map<string, BookmarkRow>
    requires forall j :: 0 <= j < |recs| ==> recs[j].id.Some?
  {
    if recs == [] then table
    else UpsertBookmark(UpsertAll(table, recs[..|recs| - 1]), recs[|recs| - 1].id.value, recs[|recs| - 1])
  }

  /** The links those records leave in `parents`, in order. */
  function LinksOf(recs: seq<BookmarkRecord>): seq<(string, string)>
    requires forall j :: 0 <= j < |recs| ==> recs[j].id.Some?
  {
    if recs == [] then []
    else
      var last := recs[|recs| - 1];
      LinksOf(recs[..|recs| - 1]) + (if Link(last.id.value, last).Some? then [Link(last.id.value, last).value] else [])
  }

  /** The bookmark table after a `with BookmarkInserter(conn)` session over
      `recs`. */
  function SessionResult(table: map<string, BookmarkRow>, recs: seq<BookmarkRecord>): map<string, BookmarkRow>
  {
    var done := recs[..LeadingWithId(recs)];
    ApplyParents(UpsertAll(table, done), LinksOf(done))
  }

  /** A session: enter, insert each record until one raises, and exit in
      every case, so the deferred parents are applied on both paths. */
  method IngestBookmarks(conn: Database, recs: seq<BookmarkRecord>) returns (err: Option<Error>)
    modifies conn`bookmarkEntry
    ensures conn.bookmarkEntry == SessionResult(old(conn.bookmarkEntry), recs)
    ensures err.None? <==> LeadingWithId(recs) == |recs|
  {
    var inserter := new BookmarkInserter(conn);
    inserter.Enter();
    var n := LeadingWithId(recs);
    var i := 0;
    err := None;
    while i < |recs| && err.None?
      invariant 0 <= i <= n
      invariant inserter.Valid() && inserter.cursorOpen && inserter.conn == conn
      invariant err.None? ==> i <= n
      invariant err.Some? ==> i == n && n < |recs|
      invariant conn.bookmarkEntry == UpsertAll(old(conn.bookmarkEntry), recs[..i])
      invariant inserter.links == LinksOf(recs[..i])
      decreases |recs| - i, if err.None? then 1 else 0
    {
      err := inserter.Insert(recs[i]);
      if err.None? {
        assert recs[..i + 1][..i] == recs[..i];
        i := i + 1;
      }
    }
    inserter.Exit();
  }

  /** The records of the parent-resolution examples: a folder `A`, a
      bookmark `B` inside it, a bookmark `C` in the root folder "unfiled". */
  function FolderA(): BookmarkRecord { BookmarkRecord(Some("A"), None, None, None, None, None, None) }
  function BookmarkB(): BookmarkRecord { BookmarkRecord(Some("B"), None, None, None, None, None, Some("A")) }
  function BookmarkC(): BookmarkRecord { BookmarkRecord(Some("C"), None, None, None, None, None, Some("unfiled")) }

  /** The row each of them gets on first insert. */
  function BareRow(): BookmarkRow { BookmarkRow(None, None, None, false, None, None) }

  /** Parent delivered before its child: the child gets it, the child of a
      root folder gets none. */
  lemma ParentFirstExample()
    ensures var s := SessionResult(map[], [FolderA(), BookmarkB(), BookmarkC()]);
            && s.Keys == {"A", "B", "C"}
            && s["B"].parentId == Some("A") && s["C"].parentId == None && s["A"].parentId == None
  {
    var a, b, c := FolderA(), BookmarkB(), BookmarkC();
    var recs := [a, b, c];
    assert LeadingWithId(recs) == 3 by {
      assert recs[1..] == [b, c] && recs[1..][1..] == [c] && recs[1..][1..][1..] == [];
    }
    assert recs[..3] == recs;
    assert recs[..2] == [a, b] && [a, b][..1] == [a] && [a][..0] == [];
    assert UpsertAll(map[], []) == map[];
    assert MillisToSeconds(None) == None;
    var t1 := UpsertAll(map[], [a]);
    assert t1 == UpsertBookmark(map[], "A", a);
    assert t1 == map["A" := BareRow()];
    var t2 := UpsertAll(map[], [a, b]);
    assert t2 == t1["B" := BareRow()];
    var t3 := UpsertAll(map[], recs);
    assert t3 == t2["C" := BareRow()];
    assert LinksOf([a]) == [];
    assert LinksOf([a, b]) == [("B", "A")];
    assert LinksOf(recs) == [("B", "A")];
    assert ApplyParents(t3, [("B", "A")]) == SetParent(t3, ("B", "A"));
  }

  /** Child delivered before its parent: the same table results, because
      parents are applied only when the session ends. */
  lemma ChildFirstExample()
    ensures SessionResult(map[], [BookmarkB(), FolderA(), BookmarkC()])
         == SessionResult(map[], [FolderA(), BookmarkB(), BookmarkC()])
  {
    var a, b, c := FolderA(), BookmarkB(), BookmarkC();
    assert [b, a, c] == [] + [b, a] + [c] && [a, b, c] == [] + [a, b] + [c];
    SessionSwap(map[], [], b, a, [c]);
  }

  // ---------------------------------------------------------------------
  // Delivery order

  /** The records before the first one without an id, split at a seam. */
  lemma {:induction false} LeadingAppend(a: seq<BookmarkRecord>, c: seq<BookmarkRecord>)
    ensures LeadingWithId(a + c) == if LeadingWithId(a) < |a| then LeadingWithId(a) else |a| + LeadingWithId(c)
  {
    if a == [] {
      assert a + c == c;
    } else if a[0].id.Some? {
      assert (a + c)[1..] == a[1..] + c;
      LeadingAppend(a[1..], c);
    }
  }

  predicate AllHaveIds(recs: seq<BookmarkRecord>)
  {
    forall j :: 0 <= j < |recs| ==> recs[j].id.Some?
  }

  lemma {:induction false} UpsertAllAppend(t: map<string, BookmarkRow>, a: seq<BookmarkRecord>, c: seq<BookmarkRecord>)
    requires AllHaveIds(a) && AllHaveIds(c)
    ensures AllHaveIds(a + c)
    ensures UpsertAll(t, a + c) == UpsertAll(UpsertAll(t, a), c)
    decreases |c|
  {
    if c == [] {
      assert a + c == a;
    } else {
      assert (a + c)[..|a + c| - 1] == a + c[..|c| - 1];
      UpsertAllAppend(t, a, c[..|c| - 1]);
    }
  }

  lemma {:induction false} LinksOfAppend(a: seq<BookmarkRecord>, c: seq<BookmarkRecord>)
    requires AllHaveIds(a) && AllHaveIds(c)
    ensures AllHaveIds(a + c)
    ensures LinksOf(a + c) == LinksOf(a) + LinksOf(c)
    decreases |c|
  {
    if c == [] {
      assert a + c == a;
    } else {
      assert (a + c)[..|a + c| - 1] == a + c[..|c| - 1];
      LinksOfAppend(a, c[..|c| - 1]);
    }
  }

  lemma {:induction false} ApplyParentsAppend(t: map<string, BookmarkRow>, a: seq<(string, string)>, c: seq<(string, string)>)
    ensures ApplyParents(t, a + c) == ApplyParents(ApplyParents(t, a), c)
    decreases |a|
  {
    if a == [] {
      assert a + c == c;
    } else {
      assert (a + c)[1..] == a[1..] + c;
      ApplyParentsAppend(SetParent(t, a[0]), a[1..], c);
    }
  }

  /** The upserts of two records with different ids commute. */
  lemma UpsertCommute(t: map<string, BookmarkRow>, x: BookmarkRecord, y: BookmarkRecord)
    requires x.id.Some? && y.id.Some? && x.id != y.id
    ensures UpsertBookmark(UpsertBookmark(t, x.id.value, x), y.id.value, y)
         == UpsertBookmark(UpsertBookmark(t, y.id.value, y), x.id.value, x)
  {
    var xy := UpsertBookmark(UpsertBookmark(t, x.id.value, x), y.id.value, y);
    var yx := UpsertBookmark(UpsertBookmark(t, y.id.value, y), x.id.value, x);
    assert xy.Keys == yx.Keys;
    assert forall k :: k in xy ==> xy[k] == yx[k];
  }

  /** A single record leaves its own link, if any. */
  lemma LinksOfSingle(x: BookmarkRecord)
    requires x.id.Some?
    ensures LinksOf([x]) == if Link(x.id.value, x).Some? then [Link(x.id.value, x).value] else []
  {
    assert [x][..0] == [];
  }

  /** Two parent updates of different children commute. */
  lemma SetParentCommute(t: map<string, BookmarkRow>, l: (string, string), m: (string, string))
    requires l.0 != m.0
    ensures ApplyParents(t, [l, m]) == ApplyParents(t, [m, l])
  {
    var lm, ml := SetParent(SetParent(t, l), m), SetParent(SetParent(t, m), l);
    assert [l, m][1..] == [m] && [m][1..] == [];
    assert ApplyParents(t, [l, m]) == ApplyParents(SetParent(t, l), [m]);
    assert ApplyParents(SetParent(t, l), [m]) == ApplyParents(lm, []);
    assert [m, l][1..] == [l] && [l][1..] == [];
    assert ApplyParents(t, [m, l]) == ApplyParents(SetParent(t, m), [l]);
    assert ApplyParents(SetParent(t, m), [l]) == ApplyParents(ml, []);
    assert lm.Keys == ml.Keys;
    assert forall k :: k in lm ==> lm[k] == ml[k];
  }

  /** The links two records with different ids leave can be applied in
      either order. */
  lemma LinksCommute(t: map<string, BookmarkRow>, x: BookmarkRecord, y: BookmarkRecord)
    requires x.id.Some? && y.id.Some? && x.id != y.id
    ensures ApplyParents(t, LinksOf([x]) + LinksOf([y])) == ApplyParents(t, LinksOf([y]) + LinksOf([x]))
  {
    LinksOfSingle(x);
    LinksOfSingle(y);
    var lx, ly := LinksOf([x]), LinksOf([y]);
    if lx != [] && ly != [] {
      assert lx + ly == [lx[0], ly[0]] && ly + lx == [ly[0], lx[0]];
      SetParentCommute(t, lx[0], ly[0]);
    } else {
      assert lx + ly == ly + lx;
    }
  }

  /** Swapping two neighbouring records with different ids does not change
      the upserts' result. */
  lemma UpsertAllSwap(t: map<string, BookmarkRow>, a: seq<BookmarkRecord>, x: BookmarkRecord, y: BookmarkRecord,
                      c: seq<BookmarkRecord>)
    requires AllHaveIds(a) && AllHaveIds(c) && x.id.Some? && y.id.Some? && x.id != y.id
    ensures AllHaveIds(a + [x] + [y] + c) && AllHaveIds(a + [y] + [x] + c)
    ensures UpsertAll(t, a + [x] + [y] + c) == UpsertAll(t, a + [y] + [x] + c)
  {
    assert AllHaveIds(a + [x] + [y]) && AllHaveIds(a + [y] + [x]);
    UpsertAllAppend(t, a + [x] + [y], c);
    UpsertAllAppend(t, a + [y] + [x], c);
    assert (a + [x] + [y])[..|a| + 1] == a + [x] && (a + [x])[..|a|] == a;
    assert (a + [y] + [x])[..|a| + 1] == a + [y] && (a + [y])[..|a|] == a;
    UpsertCommute(UpsertAll(t, a), x, y);
  }

  /** The links of `a`, `x`, `y`, `c` in a row, in four parts. */
  lemma LinksOfFour(a: seq<BookmarkRecord>, x: BookmarkRecord, y: BookmarkRecord, c: seq<BookmarkRecord>)
    requires AllHaveIds(a) && AllHaveIds(c) && x.id.Some? && y.id.Some?
    ensures AllHaveIds(a + [x] + [y] + c)
    ensures LinksOf(a + [x] + [y] + c) == LinksOf(a) + (LinksOf([x]) + LinksOf([y])) + LinksOf(c)
  {
    LinksOfAppend(a, [x]);
    LinksOfAppend(a + [x], [y]);
    LinksOfAppend(a + [x] + [y], c);
  }

  /** Swapping two neighbouring records with different ids does not change
      the parents applied. */
  lemma ApplyLinksSwap(t: map<string, BookmarkRow>, a: seq<BookmarkRecord>, x: BookmarkRecord, y: BookmarkRecord,
                       c: seq<BookmarkRecord>)
    requires AllHaveIds(a) && AllHaveIds(c) && x.id.Some? && y.id.Some? && x.id != y.id
    ensures AllHaveIds(a + [x] + [y] + c) && AllHaveIds(a + [y] + [x] + c)
    ensures ApplyParents(t, LinksOf(a + [x] + [y] + c)) == ApplyParents(t, LinksOf(a + [y] + [x] + c))
  {
    LinksOfFour(a, x, y, c);
    LinksOfFour(a, y, x, c);
    var la, lx, ly, lc := LinksOf(a), LinksOf([x]), LinksOf([y]), LinksOf(c);
    ApplyParentsAppend(t, la + (lx + ly), lc);
    ApplyParentsAppend(t, la + (ly + lx), lc);
    ApplyParentsAppend(t, la, lx + ly);
    ApplyParentsAppend(t, la, ly + lx);
    LinksCommute(ApplyParents(t, la), x, y);
  }

  /** When every record of `a` has an id, the session covers `a`, `x`, `y`
      and the leading records of `b` that have one. */
  lemma SessionPrefix(a: seq<BookmarkRecord>, x: BookmarkRecord, y: BookmarkRecord, b: seq<BookmarkRecord>)
    requires LeadingWithId(a) == |a| && x.id.Some? && y.id.Some?
    ensures LeadingWithId(a + [x, y] + b) == |a| + 2 + LeadingWithId(b)
    ensures (a + [x, y] + b)[..LeadingWithId(a + [x, y] + b)] == a + [x] + [y] + b[..LeadingWithId(b)]
  {
    var m := a + [x] + [y];
    SplitAfterTwo(a, x, y, b);
    LeadingTwo(x, y, b);
    LeadingAppend(a, [x, y] + b);
    PrefixOfAppend(m, b, LeadingWithId(b));
  }

  lemma SplitAfterTwo<T>(a: seq<T>, x: T, y: T, b: seq<T>)
    ensures a + [x, y] + b == a + ([x, y] + b) == (a + [x] + [y]) + b
  {
  }

  lemma LeadingTwo(x: BookmarkRecord, y: BookmarkRecord, b: seq<BookmarkRecord>)
    requires x.id.Some? && y.id.Some?
    ensures LeadingWithId([x, y] + b) == 2 + LeadingWithId(b)
  {
    assert ([x, y] + b)[1..] == [y] + b && ([y] + b)[1..] == b;
  }

  lemma PrefixOfAppend<T>(m: seq<T>, b: seq<T>, k: nat)
    requires k <= |b|
    ensures (m + b)[..|m| + k] == m + b[..k]
  {
  }

  /** Delivery order does not matter to a session beyond the order of
      records sharing an id: swapping two neighbouring records with
      different ids leaves the bookmark table the same, parents included. */
  lemma SessionSwap(table: map<string, BookmarkRow>, a: seq<BookmarkRecord>, x: BookmarkRecord, y: BookmarkRecord,
                    b: seq<BookmarkRecord>)
    requires x.id.Some? && y.id.Some? && x.id != y.id
    ensures SessionResult(table, a + [x, y] + b) == SessionResult(table, a + [y, x] + b)
  {
    var r1, r2 := a + [x, y] + b, a + [y, x] + b;
    var na := LeadingWithId(a);
    if na < |a| {
      assert r1 == a + ([x, y] + b) && r2 == a + ([y, x] + b);
      LeadingAppend(a, [x, y] + b);
      LeadingAppend(a, [y, x] + b);
      assert r1[..na] == a[..na] == r2[..na];
    } else {
      SessionPrefix(a, x, y, b);
      SessionPrefix(a, y, x, b);
      var c := b[..LeadingWithId(b)];
      assert AllHaveIds(a) && AllHaveIds(c);
      UpsertAllSwap(table, a, x, y, c);
      ApplyLinksSwap(UpsertAll(table, a + [x] + [y] + c), a, x, y, c);
    }
  }

  // ---------------------------------------------------------------------
  // History

  /** `reduce(reducer, visits, acc)`: the smallest date seen, `None` only
      when there was nothing to see. */
  function MinDate(acc: Option<int>, visits: seq<Visit>): (r: Option<int>)
    ensures r.None? <==> acc.None? && visits == []
    ensures r.Some? ==> r == acc || exists i :: 0 <= i < |visits| && visits[i].date == r.value
    ensures r.Some? ==> (acc.Some? ==> r.value <= acc.value) && forall i :: 0 <= i < |visits| ==> r.value <= visits[i].date
    decreases |visits|
  {
    if visits == [] then acc
    else
      var c := if acc.None? then visits[0].date
               else if acc.value <= visits[0].date then acc.value else visits[0].date;
      var r := MinDate(Some(c), visits[1..]);
      assert forall i :: 1 <= i < |visits| ==> visits[i] == visits[1..][i - 1];
      r
  }

  /** `last_visited` and `visit_count` before the upsert: the earliest visit
      and the number of visits when `visits` is present, else both NULL. */
  function VisitSummary(visits: Option<seq<Visit>>): (r: (Option<int>, Option<int>))
    ensures visits.None? ==> r == (None, None)
    ensures visits.Some? ==> r.1 == Some(|visits.value|)
    ensures visits == Some([]) ==> r.0 == None
    ensures visits.Some? && visits.value != [] ==>
              && r.0.Some?
              && (exists i :: 0 <= i < |visits.value| && visits.value[i].date == r.0.value)
              && (forall i :: 0 <= i < |visits.value| ==> r.0.value <= visits.value[i].date)
  {
    if visits.None? then (None, None) else (MinDate(None, visits.value), Some(|visits.value|))
  }

  lemma VisitSummaryExample()
    ensures VisitSummary(Some([Visit(500), Visit(200), Visit(800)])) == (Some(200), Some(3))
  {
  }

  /** `TO_TIMESTAMP(%(last_visited)s/1000000)`: microseconds to seconds. */
  function MicrosToSeconds(us: Option<int>): (s: Option<int>)
    ensures s.Some? <==> us.Some?
    ensures us.Some? && us.value >= 0 ==> s.value * 1000000 <= us.value < (s.value + 1) * 1000000
    ensures us.Some? && us.value < 0 ==> (s.value - 1) * 1000000 < us.value <= s.value * 1000000
  {
    if us.Some? then Some(TruncDiv(us.value, 1000000)) else None
  }

  /** The history upsert of `HistoryInserter.insert` for a record with an
      id: `histUri` becomes `url`; on conflict title, last visit, visit
      count and modified are overwritten (with NULL when there are no
      visits), url and deleted are kept. */
  function UpsertHistory(table: map<string, HistoryRow>, id: string, rec: HistoryRecord): (t: map<string, HistoryRow>)
    ensures t.Keys == table.Keys + {id}
    ensures id !in table ==> t[id] == HistoryRow(MicrosToSeconds(VisitSummary(rec.visits).0), VisitSummary(rec.visits).1,
                                                 rec.title, rec.histUri, rec.deleted.Some? && rec.deleted.value, rec.modified)
    ensures id in table ==> && t[id].title == rec.title && t[id].modified == rec.modified
                            && t[id].lastVisited == MicrosToSeconds(VisitSummary(rec.visits).0)
                            && t[id].visitCount == VisitSummary(rec.visits).1
    ensures id in table ==> t[id].url == table[id].url && t[id].deleted == table[id].deleted
    ensures forall k :: k in table && k != id ==> t[k] == table[k]
  {
    var (lastVisited, visitCount) := VisitSummary(rec.visits);
    var seconds := MicrosToSeconds(lastVisited);
    if id in table then
      table[id := table[id].(title := rec.title, lastVisited := seconds, visitCount := visitCount, modified := rec.modified)]
    else
      table[id := HistoryRow(seconds, visitCount, rec.title, rec.histUri,
                             if rec.deleted.Some? then rec.deleted.value else false, rec.modified)]
  }

  /** Upserting the same history record twice is upserting it once. */
  lemma UpsertHistoryIdempotent(table: map<string, HistoryRow>, id: string, rec: HistoryRecord)
    ensures UpsertHistory(UpsertHistory(table, id, rec), id, rec) == UpsertHistory(table, id, rec)
  {
    var once := UpsertHistory(table, id, rec);
    assert UpsertHistory(once, id, rec)[id] == once[id];
  }

  class HistoryInserter {
    const conn: Database
    var cursorOpen: bool

    constructor (conn: Database)
      ensures this.conn == conn && !cursorOpen
    {
      this.conn := conn;
      cursorOpen := false;
    }

    method Enter()
      modifies this`cursorOpen
      ensures cursorOpen
    {
      cursorOpen := true;
    }

    method Exit()
      modifies this`cursorOpen
      ensures !cursorOpen
    {
      cursorOpen := false;
    }

    /** `insert(history_entry)`: the parameters have no default for `id`
        or `modified`, so a record lacking either raises KeyError from the
        statement and changes nothing. */
    method Insert(rec: HistoryRecord) returns (err: Option<Error>)
      requires cursorOpen
      modifies conn`history
      ensures err.Some? <==> rec.id.None? || rec.modified.None?
      ensures err.Some? ==> err == Some(MissingKey) && conn.history == old(conn.history)
      ensures err.None? ==> conn.history == UpsertHistory(old(conn.history), rec.id.value, rec)
    {
      if rec.id.None? || rec.modified.None? {
        return Some(MissingKey);
      }
      conn.history := UpsertHistory(conn.history, rec.id.value, rec);
      return None;
    }
  }
}
