/** The relational metadata store (src/db.py): the SQLite table `documents`
    keyed by the integer primary key `id`, modelled as a map from id to the
    rest of the row. Opening and closing connections, the schema creation of
    `init_db` and durability are not part of this model; a failed statement
    commits nothing, which the model shows by leaving the map as it was. */
module Db {

  /** The columns of a `documents` row other than its key. */
  datatype Record = Record(docUuid: string, text: string, source: string, repType: string, fullPath: string)

  /** A row together with its key, as callers insert it and get it back. */
  datatype Row = Row(id: nat, rec: Record)

  /** How a batch insert ends: committed, or rejected by the primary key
      (sqlite3.IntegrityError) with nothing committed. */
  datatype Outcome = Committed | IntegrityError

  type Table = map<nat, Record>

  /** The largest id of a non-empty set of ids: `SELECT MAX(id)`. */
  ghost function MaxId(ids: set<nat>): (m: nat)
    requires ids != {}
    ensures m in ids
    ensures forall k :: k in ids ==> k <= m
  {
    var x :| x in ids;
    var others := ids - {x};
    if others == {} then
      assert forall k :: k in ids ==> k in others || k == x;
      x
    else
      var rest := MaxId(others);
      assert forall k :: k in ids ==> k in others || k == x;
      if x > rest then x else rest
  }

  /** `get_doc_count`: 0 for an empty table, otherwise the largest id plus one. */
  ghost function NextId(table: Table): (next: nat)
    ensures table == map[] ==> next == 0
    ensures table != map[] ==> next - 1 in table
    ensures forall k :: k in table ==> k < next
  {
    if table == map[] then 0 else MaxId(table.Keys) + 1
  }

  /** The ids of the rows whose `full_path` is path. */
  function IdsWithPath(table: Table, path: string): set<nat> {
    set k | k in table && table[k].fullPath == path
  }

  /** The distinct `full_path` values of the table: `SELECT DISTINCT full_path`. */
  function PathsOf(table: Table): set<string> {
    set k | k in table :: table[k].fullPath
  }

  /** The ids of a batch, in batch order. */
  function IdsOf(batch: seq<Row>): (ids: seq<nat>)
    ensures |ids| == |batch| && forall j :: 0 <= j < |batch| ==> ids[j] == batch[j].id
  {
    seq(|batch|, j requires 0 <= j < |batch| => batch[j].id)
  }

  /** A batch the primary key admits: no id already stored, no id twice. */
  predicate FreshBatch(table: Table, batch: seq<Row>) {
    && (forall j :: 0 <= j < |batch| ==> batch[j].id !in table)
    && (forall j, k :: 0 <= j < k < |batch| ==> batch[j].id != batch[k].id)
  }

  /** The rows of a batch as a table. */
  function BatchMap(batch: seq<Row>): (m: Table)
    ensures forall j :: 0 <= j < |batch| ==> batch[j].id in m
  {
    if batch == [] then map[]
    else
      var last := batch[|batch| - 1];
      BatchMap(batch[..|batch| - 1])[last.id := last.rec]
  }

  /** Every key of BatchMap(batch) is the id of some row of the batch. */
  lemma {:induction false} BatchMapIndex(batch: seq<Row>, k: nat) returns (j: nat)
    requires k in BatchMap(batch)
    ensures j < |batch| && batch[j].id == k
  {
    var n := |batch| - 1;
    if batch[n].id == k {
      j := n;
    } else {
      j := BatchMapIndex(batch[..n], k);
    }
  }

  /** With distinct ids, each row of the batch is stored under its own id. */
  lemma {:induction false} BatchMapAt(batch: seq<Row>, j: int)
    requires FreshBatch(map[], batch) && 0 <= j < |batch|
    ensures BatchMap(batch)[batch[j].id] == batch[j].rec
  {
    var n := |batch| - 1;
    if j < n {
      assert FreshBatch(map[], batch[..n]);
      BatchMapAt(batch[..n], j);
      assert batch[..n][j] == batch[j];
    }
  }

  /** The requested ids that the table holds, in request order, repeats kept. */
  function Present(table: Table, ids: seq<int>): (r: seq<nat>)
    ensures |r| <= |ids|
    ensures forall k :: k in r ==> k in table && k in ids
  {
    if ids == [] then []
    else
      var last := ids[|ids| - 1];
      Present(table, ids[..|ids| - 1]) + (if last in table then [last as nat] else [])
  }

  /** What `get_documents_by_ids` returns: for each requested id the table
      holds, in request order, its row. */
  function Hydrate(table: Table, ids: seq<int>): (rows: seq<Row>)
    ensures forall r :: r in rows ==> r.id in table && r.rec == table[r.id]
  {
    if ids == [] then []
    else
      var last := ids[|ids| - 1];
      Hydrate(table, ids[..|ids| - 1]) + (if last in table then [Row(last as nat, table[last as nat])] else [])
  }

  /** The fetched rows are exactly the present ids, in request order, each
      with its stored record. */
  lemma {:induction false} HydrateIsPresent(table: Table, ids: seq<int>)
    ensures |Hydrate(table, ids)| == |Present(table, ids)|
    ensures forall j :: 0 <= j < |Present(table, ids)| ==>
      Hydrate(table, ids)[j] == Row(Present(table, ids)[j], table[Present(table, ids)[j]])
  {
    if ids != [] {
      HydrateIsPresent(table, ids[..|ids| - 1]);
    }
  }

  /** Fetching a concatenation of requests is fetching each in turn: the
      caller's order is kept. */
  lemma {:induction false} HydrateAppend(table: Table, a: seq<int>, b: seq<int>)
    ensures Hydrate(table, a + b) == Hydrate(table, a) + Hydrate(table, b)
  {
    if b != [] {
      var n := |b| - 1;
      assert (a + b)[..|a + b| - 1] == a + b[..n];
      assert (a + b)[|a + b| - 1] == b[n];
      HydrateAppend(table, a, b[..n]);
    } else {
      assert a + b == a;
    }
  }

  /** An id that is stored and requested m times is returned m times; an id
      that is not stored is never returned. */
  lemma {:induction false} PresentCount(table: Table, ids: seq<int>, k: int)
    ensures multiset(Present(table, ids))[k] == if k in table then multiset(ids)[k] else 0
  {
    if ids != [] {
      var n := |ids| - 1;
      PresentCount(table, ids[..n], k);
      assert ids == ids[..n] + [ids[n]];
    }
  }

  /** Round trip: after a committed batch insert, fetching the batch's ids
      gives back the batch. */
  lemma FetchAfterInsert(table: Table, batch: seq<Row>)
    requires FreshBatch(table, batch)
    ensures Hydrate(table + BatchMap(batch), IdsOf(batch)) == batch
  {
    var m := table + BatchMap(batch);
    var ids := IdsOf(batch);
    HydrateAllStored(m, ids);
    assert FreshBatch(map[], batch);
    forall j | 0 <= j < |batch| ensures Hydrate(m, ids)[j] == batch[j] {
      BatchMapAt(batch, j);
    }
  }

  /** When every requested id is stored, the fetch has one row per id, each
      id with its own record. */
  lemma {:induction false} HydrateAllStored(table: Table, ids: seq<nat>)
    requires forall j :: 0 <= j < |ids| ==> ids[j] in table
    ensures |Hydrate(table, ids)| == |ids|
    ensures forall j :: 0 <= j < |ids| ==> Hydrate(table, ids)[j] == Row(ids[j], table[ids[j]])
  {
    if ids != [] {
      HydrateAllStored(table, ids[..|ids| - 1]);
    }
  }

  /** After deleting a path, that path is no longer among the stored paths and
      every other path still is. */
  lemma DeletePaths(table: Table, path: string)
    ensures PathsOf(table - IdsWithPath(table, path)) == PathsOf(table) - {path}
  {
    var t := table - IdsWithPath(table, path);
    forall p | p in PathsOf(table) - {path} ensures p in PathsOf(t) {
      var k :| k in table && table[k].fullPath == p;
      assert k in t;
    }
  }

  /** The `full_path` values of a batch. */
  function BatchPaths(batch: seq<Row>): set<string> {
    set j | 0 <= j < |batch| :: batch[j].rec.fullPath
  }

  /** A committed batch adds exactly its own paths. */
  lemma InsertPaths(table: Table, batch: seq<Row>)
    requires FreshBatch(table, batch)
    ensures PathsOf(table + BatchMap(batch)) == PathsOf(table) + BatchPaths(batch)
  {
    InsertKeepsPaths(table, batch);
    InsertAddsPaths(table, batch);
    InsertOnlyAddsPaths(table, batch);
  }

  lemma InsertAddsPaths(table: Table, batch: seq<Row>)
    requires FreshBatch(table, batch)
    ensures BatchPaths(batch) <= PathsOf(table + BatchMap(batch))
  {
    var t := table + BatchMap(batch);
    assert FreshBatch(map[], batch);
    forall p | p in BatchPaths(batch) ensures p in PathsOf(t) {
      var j :| 0 <= j < |batch| && batch[j].rec.fullPath == p;
      BatchMapAt(batch, j);
      assert t[batch[j].id] == batch[j].rec;
    }
  }

  lemma InsertKeepsPaths(table: Table, batch: seq<Row>)
    requires FreshBatch(table, batch)
    ensures PathsOf(table) <= PathsOf(table + BatchMap(batch))
  {
    var t := table + BatchMap(batch);
    forall p | p in PathsOf(table) ensures p in PathsOf(t) {
      var k :| k in table && table[k].fullPath == p;
      if k in BatchMap(batch) {
        var j := BatchMapIndex(batch, k);
        assert false;
      }
      assert t[k] == table[k];
    }
  }

  lemma InsertOnlyAddsPaths(table: Table, batch: seq<Row>)
    requires FreshBatch(table, batch)
    ensures PathsOf(table + BatchMap(batch)) <= PathsOf(table) + BatchPaths(batch)
  {
    var t := table + BatchMap(batch);
    assert FreshBatch(map[], batch);
    forall p | p in PathsOf(t) ensures p in PathsOf(table) + BatchPaths(batch) {
      var k :| k in t && t[k].fullPath == p;
      if k in BatchMap(batch) {
        var j := BatchMapIndex(batch, k);
        BatchMapAt(batch, j);
      }
    }
  }

  /** Ids handed out consecutively from NextId form a batch the primary key
      admits: the allocator never collides with a stored row. */
  lemma AllocatedBatchIsFresh(table: Table, batch: seq<Row>)
    requires forall j :: 0 <= j < |batch| ==> batch[j].id == NextId(table) + j
    ensures FreshBatch(table, batch)
  {
  }

  /** Ids are not reserved after deletion: when the rows of a path hold the
      largest id, deleting them brings NextId down to that id or below, so
      that id is handed out again. */
  lemma DeletingMaxIdFreesIt(table: Table, path: string)
    requires table != map[] && NextId(table) - 1 in IdsWithPath(table, path)
    ensures NextId(table - IdsWithPath(table, path)) <= NextId(table) - 1
  {
  }

  /** A witness for DeletingMaxIdFreesIt: in a two-row table, deleting the
      path of id 1 makes NextId return 1 again. */
  lemma DeletedIdIsReallocated()
    ensures var t := map[0 := Record("u0", "t0", "s0", "file_content", "a"),
                         1 := Record("u1", "t1", "s1", "file_content", "b")];
            NextId(t) == 2 && 1 in IdsWithPath(t, "b")
            && NextId(t - IdsWithPath(t, "b")) == 1
  {
    var t := map[0 := Record("u0", "t0", "s0", "file_content", "a"),
                 1 := Record("u1", "t1", "s1", "file_content", "b")];
    assert IdsWithPath(t, "b") == {1};
    assert t - {1} == map[0 := t[0]];
  }

  /** The `documents` table of one database file. */
  class MetadataStore {
    var table: Table

    /** An opened database holding `rows` (none for a new file). */
    constructor (rows: Table)
      ensures table == rows
    {
      table := rows;
    }

    /** `get_doc_count`: the id the next chunk gets, `MAX(id) + 1` or 0 for
        an empty table. It is larger than every stored id, so it is free. */
    method GetDocCount() returns (next: nat)
      ensures table == map[] ==> next == 0
      ensures table != map[] ==> next - 1 in table
      ensures forall k :: k in table ==> k < next
      ensures next == NextId(table)
    {
      var keys := table.Keys;
      next := 0;
      while keys != {}
        invariant keys <= table.Keys
        invariant forall k :: k in table && k !in keys ==> k < next
        invariant next > 0 ==> next - 1 in table
        decreases keys
      {
        var k :| k in keys;
        if k + 1 > next {
          next := k + 1;
        }
        keys := keys - {k};
      }
      if table != map[] {
        assert NextId(table) - 1 in table && next - 1 in table;
      }
    }

    /** `get_all_full_paths`: the set of sources that have rows. */
    function GetAllFullPaths(): (paths: set<string>)
      reads this
      ensures forall p :: p in paths <==> IdsWithPath(table, p) != {}
    {
      var paths := PathsOf(table);
      forall p | IdsWithPath(table, p) != {} ensures p in paths {
        var k :| k in IdsWithPath(table, p);
      }
      forall p | p in paths ensures IdsWithPath(table, p) != {} {
        var k :| k in table && table[k].fullPath == p;
        assert k in IdsWithPath(table, p);
      }
      paths
    }

    /** `add_documents_batch`: an empty batch does nothing; otherwise the rows
        are inserted one by one inside one transaction, and a primary-key
        clash aborts it with nothing committed. */
    method AddDocumentsBatch(batch: seq<Row>) returns (outcome: Outcome)
      modifies this
      ensures batch == [] ==> outcome == Committed && table == old(table)
      ensures outcome == Committed <==> FreshBatch(old(table), batch)
      ensures outcome == Committed ==> table == old(table) + BatchMap(batch)
      ensures outcome == IntegrityError ==> table == old(table)
    {
      if |batch| == 0 {
        return Committed;
      }
      var staged := table;
      for i := 0 to |batch|
        invariant FreshBatch(table, batch[..i])
        invariant staged == table + BatchMap(batch[..i])
      {
        var row := batch[i];
        if row.id in staged {
          assert !FreshBatch(table, batch) by {
            if row.id !in table {
              var j := BatchMapIndex(batch[..i], row.id);
              assert batch[j].id == batch[i].id;
            }
          }
          return IntegrityError;
        }
        assert batch[..i + 1] == batch[..i] + [row];
        staged := staged[row.id := row.rec];
      }
      assert batch[..|batch|] == batch;
      table := staged;
      return Committed;
    }

    /** `get_documents_by_ids`: the stored rows of the requested ids, in the
        caller's order, an id requested twice returned twice, a missing id
        left out. */
    method GetDocumentsByIds(ids: seq<int>) returns (results: seq<Row>)
      ensures results == Hydrate(table, ids)
      ensures |results| <= |ids|
      ensures forall j :: 0 <= j < |results| ==>
        results[j].id in table && results[j].rec == table[results[j].id]
    {
      if |ids| == 0 {
        return [];
      }
      // SELECT * ... WHERE id IN (...): the requested rows, in no set order,
      // gathered into doc_map by id.
      var rows: set<nat> := set k: nat | k in table && k in ids;
      var docMap: map<nat, Record> := map[];
      while rows != {}
        invariant forall k :: k in rows ==> k in table && k in ids
        invariant forall k :: k in docMap <==> k in table && k in ids && k !in rows
        invariant forall k :: k in docMap ==> docMap[k] == table[k]
        decreases |rows|
      {
        var k :| k in rows;
        docMap := docMap[k := table[k]];
        rows := rows - {k};
      }
      results := [];
      for j := 0 to |ids|
        invariant results == Hydrate(table, ids[..j])
      {
        assert ids[..j + 1][..j] == ids[..j];
        var id := ids[j];
        if id in docMap {
          results := results + [Row(id as nat, docMap[id as nat])];
        }
      }
      assert ids[..|ids|] == ids;
      HydrateIsPresent(table, ids);
    }

    /** `delete_documents_by_path`: removes every row with that path and
        returns their ids (each once, in no promised order); a path with no
        rows gives [] and changes nothing. */
    method DeleteDocumentsByPath(path: string) returns (deleted: seq<nat>)
      modifies this
      ensures (set k | k in deleted) == IdsWithPath(old(table), path)
      ensures forall j, k :: 0 <= j < k < |deleted| ==> deleted[j] != deleted[k]
      ensures table == old(table) - IdsWithPath(old(table), path)
      ensures deleted == [] ==> table == old(table)
    {
      var matching := IdsWithPath(table, path);
      deleted := [];
      var rest := matching;
      while rest != {}
        invariant rest <= matching
        invariant forall k :: k in deleted <==> k in matching && k !in rest
        invariant forall j, k :: 0 <= j < k < |deleted| ==> deleted[j] != deleted[k]
        decreases |rest|
      {
        var k :| k in rest;
        deleted := deleted + [k];
        rest := rest - {k};
      }
      if |deleted| > 0 {
        table := table - matching;
      } else {
        assert table - matching == table;
      }
    }
  }
}
