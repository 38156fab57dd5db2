/** The engine: a growing array of records, a counter, a B+ tree and a data file
    that stay in agreement through every operation. */
module Db {
  import opened Options
  import opened Text
  import opened Json
  import opened DbModel
  import opened DataFile
  import opened TableJson
  import Tree = BPlusTree

  datatype DbResult = Answer(json: string, rows: nat, indexUsed: bool) | Failed(why: Outcome)

  lemma {:induction false} TableStep(rows: seq<Record>, r: Record)
    requires AreRows(rows) && IsRow(r)
    ensures AreRows(rows + [r])
    ensures NextId(rows + [r]) == if r.id >= NextId(rows) && r.id < INT_MAX then r.id + 1 else NextId(rows)
    ensures LastIndex(rows + [r]) == LastIndex(rows)[r.id := |rows|]
  {
    NextIdStep(rows, r);
  }

  class DbEngine {
    var records: array<Record>
    var count: nat
    var nextId: int
    const index: Tree.BPlusTree
    var file: string

    ghost function Repr(): set<object>
      reads this, index
    {
      {this, records} + index.Repr()
    }

    /** The table: the records that are in use. */
    ghost function Rows(): seq<Record>
      reads this, records
    {
      if count <= records.Length then records[..count] else []
    }

    /** Array, counter and tree agree: the tree maps every id to the last record that
        carries it, and the counter is what these rows make it. */
    ghost predicate Valid()
      reads this, Repr()
    {
      && this !in index.Repr() && records !in index.Repr()
      && index.Valid()
      && count <= records.Length
      && AreRows(Rows())
      && nextId == NextId(Rows())
      && index.Contents() == LastIndex(Rows())
    }

    /** The data file loads as the table. */
    ghost predicate Durable()
      reads this, records
    {
      FileHolds(file, Rows())
    }

    constructor (contents: string)
      ensures Valid() && fresh(Repr()) && Rows() == [] && file == contents
    {
      hide Tree.BPlusTree.Valid, Tree.BPlusTree.Repr, Tree.BPlusTree.Contents;
      records := new Record[0];
      count := 0;
      nextId := 1;
      file := contents;
      var tree := new Tree.BPlusTree();
      tree.ReprAllocated();
      index := tree;
      new;
      assert index.Repr() == tree.Repr();
      assert index.Valid();
      assert this !in index.Repr();
      assert records !in index.Repr();
      assert AreRows(Rows());
      assert index.Contents() == map[];
    }

    /** db_reserve_records. */
    method ReserveRecords(needed: nat)
      requires count <= records.Length
      modifies this`records
      ensures needed <= records.Length && (records == old(records) || fresh(records))
      ensures count <= records.Length && records[..count] == old(records[..count])
      ensures needed <= old(records.Length) ==> records == old(records)
      ensures needed > old(records.Length) ==> records.Length < 2 * needed || records.Length == 64
    {
      if needed <= records.Length {
        return;
      }
      var nextCapacity := if records.Length == 0 then 64 else records.Length;
      while nextCapacity < needed
        modifies {}
        invariant records.Length <= nextCapacity && 0 < nextCapacity
        invariant nextCapacity < 2 * needed || nextCapacity == 64
        decreases needed - nextCapacity
      {
        nextCapacity := nextCapacity * 2;
      }
      var next := new Record[nextCapacity];
      var i := 0;
      while i < records.Length
        modifies next
        invariant 0 <= i <= records.Length
        invariant forall x :: 0 <= x < i ==> next[x] == records[x]
      {
        next[i] := records[i];
        i := i + 1;
      }
      records := next;
    }

    /** load_record. */
    method LoadRecord(r: Record)
      requires Valid() && IsRow(r) && r.id < INT_MAX
      modifies Repr()
      ensures Valid() && forall o <- Repr() :: o in old(Repr()) || fresh(o)
      ensures Rows() == old(Rows()) + [r] && file == old(file)
    {
      hide Tree.BPlusTree.Valid, Tree.BPlusTree.Repr, Tree.BPlusTree.Contents, AreRows, NextId, LastIndex, NameIsValid;
      ghost var rows, nodes := Rows(), index.Repr();
      index.ReprAllocated();
      ReserveRecords(count + 1);
      assert index.Repr() == nodes;
      assert records !in nodes;
      assert index.Valid();
      records[count] := r;
      index.Insert(r.id, count);
      ghost var nodes' := index.Repr();
      assert forall o <- nodes' :: o in nodes || fresh(o);
      index.ReprAllocated();
      TableStep(rows, r);
      count := count + 1;
      if r.id >= nextId {
        nextId := r.id + 1;
      }
      assert Rows() == rows + [r];
      assert index.Repr() == nodes' && index.Valid();
    }

    /** The part of db_insert_internal after the file was written. */
    method StoreRecord(r: Record)
      requires Valid() && IsRow(r) && count < records.Length
      modifies Repr()
      ensures Valid() && forall o <- Repr() :: o in old(Repr()) || fresh(o)
      ensures Rows() == old(Rows()) + [r] && file == old(file)
    {
      hide Tree.BPlusTree.Valid, Tree.BPlusTree.Repr, Tree.BPlusTree.Contents, AreRows, NextId, LastIndex, NameIsValid;
      ghost var rows, nodes := Rows(), index.Repr();
      index.ReprAllocated();
      var recordIndex := count;
      records[recordIndex] := r;
      count := count + 1;
      TableStep(rows, r);
      if r.id >= nextId && r.id < INT_MAX {
        nextId := r.id + 1;
      }
      assert Rows() == rows + [r];
      assert index.Repr() == nodes && index.Valid();
      index.Insert(r.id, recordIndex);
      index.ReprAllocated();
    }

    /** db_insert_internal: the decision, the new table and the appended line are those
        of the model, and a rejected insertion changes nothing. */
    method InsertInternal(hasId: bool, id: int, name: string, age: int) returns (result: DbResult)
      requires Valid() && IsInt(id) && IsInt(age) && IsCString(name)
      modifies Repr()
      ensures Valid() && forall o <- Repr() :: o in old(Repr()) || fresh(o)
      ensures var o := Decide(old(Rows()), hasId, id, name, age);
        && Rows() == After(old(Rows()), o)
        && (o.Inserted? ==> IsRow(o.row)) && file == old(file) + Written(o)
        && result == Answered(o)
        && (result.Answer? <==> o.Inserted?)
        && (result.Answer? ==> result.rows == 1 && !result.indexUsed)
      ensures old(Durable()) ==> Durable()
    {
      hide Tree.BPlusTree.Valid, Tree.BPlusTree.Repr, Tree.BPlusTree.Contents, AreRows, NextId, LastIndex;
      hide Line, RowsText, FileHolds, NameIsValid;
      ghost var rows, nodes := Rows(), index.Repr();
      index.ReprAllocated();
      if (hasId && id <= 0) || age < 0 || !NameIsValid(name) {
        return Failed(BadValue);
      }
      if hasId {
        LastIndexIs(rows, id);
        var found, _, _ := index.Search(id);
        if found {
          return Failed(DuplicateId);
        }
      }
      ReserveRecords(count + 1);
      var r := Record(if hasId then id else nextId, Clip(name), age);
      InsertedIsRow(rows, Request(hasId, id, name, age));
      assert Decide(rows, hasId, id, name, age) == Inserted(r);
      file := file + Line(r);
      assert Rows() == rows;
      assert index.Repr() == nodes && index.Valid();
      StoreRecord(r);
      index.ReprAllocated();
      if old(Durable()) {
        FileStep(old(file), rows, r);
      }
      var json := InsertedJson(r);
      result := Answer(json, 1, false);
    }

    /** db_insert. */
    method Insert(name: string, age: int) returns (result: DbResult)
      requires Valid() && IsInt(age) && IsCString(name)
      modifies Repr()
      ensures Valid() && forall o <- Repr() :: o in old(Repr()) || fresh(o)
      ensures Rows() == After(old(Rows()), Decide(old(Rows()), false, 0, name, age))
      ensures file == old(file) + Written(Decide(old(Rows()), false, 0, name, age))
      ensures result == Answered(Decide(old(Rows()), false, 0, name, age))
      ensures old(Durable()) ==> Durable()
    {
      result := InsertInternal(false, 0, name, age);
    }

    /** db_insert_with_id. */
    method InsertWithId(id: int, name: string, age: int) returns (result: DbResult)
      requires Valid() && IsInt(id) && IsInt(age) && IsCString(name)
      modifies Repr()
      ensures Valid() && forall o <- Repr() :: o in old(Repr()) || fresh(o)
      ensures Rows() == After(old(Rows()), Decide(old(Rows()), true, id, name, age))
      ensures file == old(file) + Written(Decide(old(Rows()), true, id, name, age))
      ensures result == Answered(Decide(old(Rows()), true, id, name, age))
      ensures old(Durable()) ==> Durable()
    {
      result := InsertInternal(true, id, name, age);
    }

    /** The loop of db_select_projected over all records. */
    method AppendMatching(b: JsonBuilder, filter: Filter, p: Projection, ghost cols: seq<DbColumn>)
      returns (matched: nat)
      requires Valid() && b.Valid() && b !in Repr() && b.data !in Repr()
      requires cols == RecordColumns(p)
      modifies b, b.data
      ensures b.Valid() && (b.data == old(b.data) || fresh(b.data))
      ensures var found := Scan(Rows(), filter);
        && b.Contents() == old(b.Contents()) + ShowItems(RowList(found, cols))
        && matched == |found|
    {
      hide Tree.BPlusTree.Valid, Tree.BPlusTree.Repr, Tree.BPlusTree.Contents, AreRows, NextId, LastIndex, Scan;
      hide RowList, RowJson, Show, ShowItems, RecordColumns;
      ghost var rows, start := Rows(), b.Contents();
      ghost var found: seq<Record> := [];
      matched := 0;
      var needComma := false;
      var i := 0;
      ScanNothing(rows, filter);
      NoItems(cols);
      while i < count
        invariant 0 <= i <= count && records[..count] == rows
        invariant b.Valid() && (b.data == old(b.data) || fresh(b.data))
        invariant found == Scan(rows[..i], filter)
        invariant b.Contents() == start + ShowItems(RowList(found, cols))
        invariant needComma == (found != []) && matched == |found|
      {
        ScanOneMore(rows, i, filter);
        if Matches(records[i], filter) {
          ItemsOneMore(found, records[i], cols);
          if needComma {
            b.Append(",");
          }
          AppendRecord(b, records[i], p);
          found := found + [records[i]];
          needComma := true;
          matched := matched + 1;
        }
        i := i + 1;
      }
      assert rows[..count] == rows;
    }

    /** The branch of db_select_projected that asks the index. */
    method AppendIndexed(b: JsonBuilder, id: int, p: Projection, ghost cols: seq<DbColumn>)
      returns (matched: nat)
      requires Valid() && b.Valid() && b !in Repr() && b.data !in Repr()
      requires cols == RecordColumns(p)
      modifies b, b.data
      ensures b.Valid() && (b.data == old(b.data) || fresh(b.data))
      ensures var found := Selected(Rows(), ById(id));
        && b.Contents() == old(b.Contents()) + ShowItems(RowList(found, cols))
        && matched == |found|
    {
      hide Tree.BPlusTree.Valid, Tree.BPlusTree.Repr, Tree.BPlusTree.Contents, AreRows, NextId, LastIndex, Scan;
      hide RowList, RowJson, Show, ShowItems, RecordColumns;
      ghost var rows := Rows();
      matched := 0;
      NoItems(cols);
      LastIndexIs(rows, id);
      var ok, recordIndex, _ := index.Search(id);
      if ok && recordIndex < count {
        ItemsOneMore([], records[recordIndex], cols);
        AppendRecord(b, records[recordIndex], p);
        matched := matched + 1;
      }
    }

    method AppendSelected(b: JsonBuilder, filter: Filter, p: Projection, ghost cols: seq<DbColumn>)
      returns (matched: nat)
      requires Valid() && b.Valid() && b !in Repr() && b.data !in Repr()
      requires cols == RecordColumns(p)
      modifies b, b.data
      ensures b.Valid() && (b.data == old(b.data) || fresh(b.data))
      ensures var found := Selected(Rows(), filter);
        && b.Contents() == old(b.Contents()) + ShowItems(RowList(found, cols))
        && matched == |found|
    {
      hide *;
      if filter.ById? {
        matched := AppendIndexed(b, filter.id, p, cols);
      } else {
        SelectedByScan(Rows(), filter);
        matched := AppendMatching(b, filter, p, cols);
      }
    }

    /** db_select_projected: the answer lists exactly the selected rows, and for an id
        it comes from the index. */
    method SelectProjected(filter: Filter, projection: Projection) returns (result: DbResult)
      requires Valid()
      ensures result == Listed(old(Rows()), filter, projection)
      ensures result.Answer? && result.rows == |Selected(old(Rows()), filter)|
      ensures result.indexUsed <==> filter.ById?
    {
      hide *;
      ghost var cols := ColumnsOf(projection);
      var p := projection;
      if |p.columns| == 0 && !p.includeId && !p.includeName && !p.includeAge {
        p := ALL_COLUMNS;
      }
      EffectiveColumns(projection, p);
      RowsApart();
      ghost var rows := Rows();
      var b := new JsonBuilder();
      b.Append("[");
      assert Repr() == old(Repr());
      assert Valid() && Rows() == rows;
      var matched := AppendSelected(b, filter, p, cols);
      assert b.Contents() == "[" + ShowItems(RowList(Selected(rows, filter), cols));
      b.Append("]");
      assert b.Contents() == "[" + ShowItems(RowList(Selected(rows, filter), cols)) + "]";
      TextOfList(Selected(rows, filter), cols);
      var json := b.Take();
      result := Answer(json, matched, filter.ById?);
      ListedText(rows, filter, projection);
    }

    lemma {:induction false} RowsApart()
      requires Valid()
      ensures (forall o <- Repr() :: allocated(o)) && this in Repr() && records in Repr()
    {
      index.ReprAllocated();
    }

    /** db_init on a file with these contents. */
    static method Init(contents: string) returns (db: DbEngine, status: LoadResult)
      requires Load(contents, []) != OutOfRange
      ensures status == Load(contents, [])
      ensures status.Loaded? ==>
        db.Valid() && fresh(db.Repr()) && db.Rows() == status.rows && db.file == contents
      ensures status.Loaded? && Complete(contents) ==> db.Durable()
    {
      hide Tree.BPlusTree.Valid, Tree.BPlusTree.Repr, Tree.BPlusTree.Contents, AreRows, NextId, LastIndex;
      hide GetLine, ScanLine, UpToNul, NameIsValid;
      db := new DbEngine(contents);
      var rest := contents;
      while rest != ""
        invariant db.Valid() && fresh(db.Repr()) && db.file == contents
        invariant BelowIntMax(db.Rows())
        invariant Load(contents, []) == Load(rest, db.Rows())
        decreases |rest|
      {
        ghost var file := rest;
        var (line, after) := GetLine(rest, LINE_ROOM);
        assert |line| + |after| == |rest|;
        rest := after;
        var text := UpToNul(line);
        if text != "" && text[0] != '\n' {
          var r := ScanLine(text);
          if r.None? {
            return db, Malformed;
          }
          if r.value.id <= 0 || r.value.age < 0 || !NameIsValid(r.value.name) {
            return db, Invalid;
          }
          ScannedRow(line);
          db.LoadRecord(r.value);
        }
      }
      status := Loaded(db.records[..db.count]);
    }
  }

  /** What an insertion with this outcome appends to the file. */
  function Written(o: Outcome): string {
    if o.Inserted? then Line(o.row) else ""
  }

  /** The answer to an insertion with this outcome. */
  function Answered(o: Outcome): DbResult {
    if o.Inserted? then Answer(RowsText([o.row], ColumnsOf(ALL_COLUMNS)), 1, false) else Failed(o)
  }

  /** The answer to a select on these rows. */
  function Listed(rows: seq<Record>, filter: Filter, projection: Projection): DbResult {
    var found := Selected(rows, filter);
    Answer(RowsText(found, ColumnsOf(projection)), |found|, filter.ById?)
  }

  lemma {:induction false} EffectiveColumns(asked: Projection, p: Projection)
    requires asked.columns == [] && !asked.includeId && !asked.includeName && !asked.includeAge ==> p == ALL_COLUMNS
    requires asked.columns != [] || asked.includeId || asked.includeName || asked.includeAge ==> p == asked
    ensures ColumnsOf(asked) == RecordColumns(p)
  {
  }

  lemma {:induction false} SelectedByScan(rows: seq<Record>, filter: Filter)
    requires !filter.ById?
    ensures Selected(rows, filter) == Scan(rows, filter)
  {
  }

  lemma {:induction false} ListedText(rows: seq<Record>, filter: Filter, projection: Projection)
    ensures var found := Selected(rows, filter);
      Listed(rows, filter, projection) == Answer(RowsText(found, ColumnsOf(projection)), |found|, filter.ById?)
  {
  }

  lemma {:induction false} NoItems(cols: seq<DbColumn>)
    ensures ShowItems(RowList([], cols)) == ""
  {
  }

  lemma {:induction false} ItemsOneMore(rows: seq<Record>, r: Record, cols: seq<DbColumn>)
    ensures ShowItems(RowList(rows + [r], cols))
      == ShowItems(RowList(rows, cols)) + (if rows != [] then "," else "") + Show(RowJson(r, cols))
    ensures [] + [r] == [r]
  {
    RowListOneMore(rows, r, cols);
    ShowOneMore(RowList(rows, cols), RowJson(r, cols));
    hide RowJson, Show;
    NoItems(cols);
    assert rows == [] ==> RowList(rows, cols) == [];
  }

  lemma {:induction false} TextOfList(rows: seq<Record>, cols: seq<DbColumn>)
    ensures RowsText(rows, cols) == "[" + ShowItems(RowList(rows, cols)) + "]"
  {
  }

  lemma {:induction false} ScanNothing(rows: seq<Record>, filter: Filter)
    ensures Scan(rows[..0], filter) == []
  {
  }

  lemma {:induction false} ScanOneMore(rows: seq<Record>, i: nat, filter: Filter)
    requires i < |rows|
    ensures Scan(rows[..i + 1], filter)
      == Scan(rows[..i], filter) + (if Matches(rows[i], filter) then [rows[i]] else [])
  {
    assert rows[..i + 1][..i] == rows[..i];
  }

  /** The answer to an insertion: the new row in all its columns. */
  method InsertedJson(r: Record) returns (json: string)
    ensures json == RowsText([r], ColumnsOf(ALL_COLUMNS))
  {
    hide RowJson, Show;
    var b := new JsonBuilder();
    b.Append("[");
    AppendRecord(b, r, ALL_COLUMNS);
    b.Append("]");
    json := b.Take();
    assert RecordColumns(ALL_COLUMNS) == ColumnsOf(ALL_COLUMNS);
    OneRow(r, ColumnsOf(ALL_COLUMNS));
  }

  lemma {:induction false} OneRow(r: Record, cols: seq<DbColumn>)
    ensures RowsText([r], cols) == "[" + Show(RowJson(r, cols)) + "]"
  {
    hide RowJson;
    var v := RowJson(r, cols);
    assert RowList([r], cols) == [v];
    assert ShowItems([v]) == Show(v);
  }
}
