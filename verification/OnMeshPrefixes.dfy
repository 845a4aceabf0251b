/** The table of on-mesh prefixes and its reconciliation with a full report from the NCP.

    The table is a multimap from prefixes to entries, that is, a multiset of rows.
 */
module OnMeshPrefixes {
  import opened Options
  import opened Spinel
  import opened IPv6

  datatype Origin = FromNcp | FromInterface | FromUser

  // The prefix of a row is masked to its length.
  datatype Row = Row(prefix: Address, length: U8, origin: Origin, flags: U16, stable: bool, rloc: U16)

  predicate IsMasked(r: Row) {
    Masked(r.prefix, r.length) == r.prefix
  }

  // Whether a table row is the one looked for: same prefix, same origin and, for the NCP's rows,
  // the same everything.
  predicate Matches(r: Row, wanted: Row) {
    && r.prefix == wanted.prefix && r.length == wanted.length
    && r.origin == wanted.origin
    && (r.origin.FromNcp? ==> r.flags == wanted.flags && r.stable == wanted.stable && r.rloc == wanted.rloc)
  }

  lemma NcpMatchIsEquality(r: Row, wanted: Row)
    requires wanted.origin.FromNcp?
    ensures Matches(r, wanted) <==> r == wanted
  {
  }

  function MakeRow(prefix: Address, length: U8, flags: U16, stable: bool, rloc: U16): Row {
    Row(Masked(prefix, length), length, FromNcp, flags, stable, rloc)
  }

  /* The report: structs of prefix, length, stable, flags, local, RLOC16 and extended flags. */

  datatype Item = Item(row: Row, isLocal: bool)

  const ITEM_LENGTH := 23

  function ItemOf(block: seq<Byte>): (r: Option<Item>)
    ensures r.Some? <==> |block| >= ITEM_LENGTH
    ensures r.Some? ==> r.value.row.origin.FromNcp? && IsMasked(r.value.row)
  {
    if |block| < ITEM_LENGTH then None
    else
      var flags: U16 := (block[18] as int) + 0x100 * (block[22] as int);
      var rloc: U16 := (block[20] as int) + 0x100 * (block[21] as int);
      MaskedIdempotent(block[..16], block[16]);
      Some(Item(MakeRow(block[..16], block[16], flags, block[17] != 0, rloc), block[19] != 0))
  }

  // The items up to the end of the data or to the first struct that does not unpack.
  function Items(data: seq<Byte>): seq<Item>
    decreases |data|
  {
    if data == [] then []
    else
      var block := UnpackBlock(data);
      if block.None? || ItemOf(block.value).None? then []
      else [ItemOf(block.value).value] + Items(data[2 + |block.value|..])
  }

  // The rows the NCP reports as not its own.
  function Reported(items: seq<Item>): seq<Row> {
    if items == [] then []
    else (if items[0].isLocal then [] else [items[0].row]) + Reported(items[1..])
  }

  lemma {:induction false} ReportedCons(item: Item, items: seq<Item>)
    ensures Reported([item] + items) == (if item.isLocal then [] else [item.row]) + Reported(items)
  {
    assert ([item] + items)[1..] == items;
  }

  lemma {:induction false} ReportedStep(data: seq<Byte>, before: seq<Row>)
    requires UnpackBlock(data).Some? && ItemOf(UnpackBlock(data).value).Some?
    ensures var block := UnpackBlock(data).value;
      var item, rest := ItemOf(block).value, Reported(Items(data[2 + |block|..]));
      before + Reported(Items(data)) == (if item.isLocal then before else before + [item.row]) + rest
  {
    var block := UnpackBlock(data).value;
    ReportedCons(ItemOf(block).value, Items(data[2 + |block|..]));
  }

  lemma {:induction false} ReportedRows(data: seq<Byte>)
    ensures forall r :: r in Reported(Items(data)) ==> r.origin.FromNcp? && IsMasked(r)
    decreases |data|
  {
    if Items(data) != [] {
      var block := UnpackBlock(data);
      ReportedRows(data[2 + |block.value|..]);
      assert Items(data)[1..] == Items(data[2 + |block.value|..]);
    }
  }

  // A report as the NCP packs it.
  function PackItem(i: Item): (s: seq<Byte>)
    ensures |s| == ITEM_LENGTH
  {
    i.row.prefix +
    [i.row.length, if i.row.stable then 1 else 0, i.row.flags % 0x100, if i.isLocal then 1 else 0,
     i.row.rloc % 0x100, i.row.rloc / 0x100, i.row.flags / 0x100]
  }

  function PackReport(items: seq<Item>): seq<Byte> {
    if items == [] then [] else PackBlock(PackItem(items[0])) + PackReport(items[1..])
  }

  lemma {:induction false} ItemRoundTrip(i: Item)
    requires i.row.origin.FromNcp? && IsMasked(i.row)
    ensures ItemOf(PackItem(i)) == Some(i)
  {
    assert PackItem(i)[..16] == i.row.prefix;
  }

  lemma {:induction false} FirstItem(i: Item, rest: seq<Byte>)
    requires i.row.origin.FromNcp? && IsMasked(i.row)
    requires 2 + ITEM_LENGTH + |rest| <= MAX_PACK_LENGTH
    ensures Items(PackBlock(PackItem(i)) + rest) == [i] + Items(rest)
  {
    var data := PackBlock(PackItem(i)) + rest;
    BlockRoundTrip(PackItem(i), rest);
    ItemRoundTrip(i);
    assert data[2 + ITEM_LENGTH..] == rest;
  }

  ghost predicate Packable(items: seq<Item>) {
    forall i :: 0 <= i < |items| ==> items[i].row.origin.FromNcp? && IsMasked(items[i].row)
  }

  lemma {:induction false} PackReportSplits(items: seq<Item>, tail: seq<Byte>)
    requires items != []
    ensures PackReport(items) + tail == PackBlock(PackItem(items[0])) + (PackReport(items[1..]) + tail)
    ensures |PackReport(items)| == 2 + ITEM_LENGTH + |PackReport(items[1..])|
  {
    var first, rest := PackBlock(PackItem(items[0])), PackReport(items[1..]);
    assert PackReport(items) == first + rest;
    assert first + rest + tail == first + (rest + tail);
  }

  lemma {:induction false} ReportRoundTripStep(items: seq<Item>, tail: seq<Byte>)
    requires items != [] && Packable(items)
    requires |PackReport(items)| + |tail| <= MAX_PACK_LENGTH
    requires Items(PackReport(items[1..]) + tail) == items[1..]
    ensures Items(PackReport(items) + tail) == items
  {
    var rest := PackReport(items[1..]) + tail;
    PackReportSplits(items, tail);
    FirstItem(items[0], rest);
    assert items == [items[0]] + items[1..];
  }

  // The items of a report are read as they were packed, and what follows them does no harm.
  lemma {:induction false} ReportRoundTrip(items: seq<Item>, tail: seq<Byte>)
    requires Packable(items) && |PackReport(items)| + |tail| <= MAX_PACK_LENGTH && Items(tail) == []
    ensures Items(PackReport(items) + tail) == items
    decreases |items|
  {
    if items == [] {
      assert PackReport(items) + tail == tail;
    } else {
      PackReportSplits(items, tail);
      ReportRoundTrip(items[1..], tail);
      ReportRoundTripStep(items, tail);
    }
  }

  /* What a report does to the table, row by row. */

  // m copies of a row in the table and k mentions of it in the report leave this many.
  function Left(m: nat, k: nat): nat {
    if m == 0 then (if k > 0 then 1 else 0) else if m < k then m else k
  }

  ghost predicate Reconciled(before: multiset<Row>, reported: multiset<Row>, after: multiset<Row>) {
    forall r :: after[r] == if r.origin.FromNcp? then Left(before[r], reported[r]) else before[r]
  }

  // The table and the copy after these rows of the report.
  ghost predicate Taken(before: multiset<Row>, seen: multiset<Row>, rows: multiset<Row>, copy: multiset<Row>) {
    && (forall r :: rows[r] == if before[r] == 0 && seen[r] > 0 then 1 else before[r])
    && (forall r :: copy[r] == Less(before[r], seen[r]))
  }

  function Less(m: nat, k: nat): nat {
    if m < k then 0 else m - k
  }

  lemma TakenStep(before: multiset<Row>, seen: multiset<Row>, rows: multiset<Row>, copy: multiset<Row>, r: Row)
    requires Taken(before, seen, rows, copy)
    ensures Taken(before, seen + multiset{r}, if r in rows then rows else rows + multiset{r}, copy - multiset{r})
  {
  }

  // The table while the leftovers `gone` have been removed.
  ghost predicate Removed(before: multiset<Row>, gone: multiset<Row>, rows: multiset<Row>) {
    forall r :: rows[r] == if r.origin.FromNcp? then Less(before[r], gone[r]) else before[r]
  }

  class Table {
    var rows: multiset<Row>

    constructor ()
      ensures rows == multiset{}
    {
      rows := multiset{};
    }

    // find_prefix_entry: a row that is the one looked for, if there is one, in whatever order the
    // rows are visited.
    method Find(wanted: Row) returns (found: Option<Row>)
      ensures found.Some? ==> found.value in rows && Matches(found.value, wanted)
      ensures found.None? ==> forall r :: r in rows ==> !Matches(r, wanted)
    {
      var rest := rows;
      while rest != multiset{}
        invariant rest <= rows
        invariant forall r :: r in rows && r !in rest ==> !Matches(r, wanted)
        decreases |rest|
      {
        var r :| r in rest;
        if Matches(r, wanted) {
          return Some(r);
        }
        rest := rest[r := 0];
      }
      found := None;
    }

    // on_mesh_prefix_was_added, for the NCP's rows
    method WasAdded(r: Row)
      requires r.origin.FromNcp?
      modifies this
      ensures rows == if r in old(rows) then old(rows) else old(rows) + multiset{r}
    {
      var found := Find(r);
      if found.None? {
        NcpMatchIsEquality(r, r);
        rows := rows + multiset{r};
      } else {
        NcpMatchIsEquality(found.value, r);
      }
    }

    // on_mesh_prefix_was_removed, for the NCP's rows
    method WasRemoved(prefix: Address, r: Row)
      requires r.origin.FromNcp?
      modifies this
      ensures rows == old(rows) - multiset{r.(prefix := Masked(prefix, r.length))}
    {
      var wanted := r.(prefix := Masked(prefix, r.length));
      var found := Find(wanted);
      if found.Some? {
        NcpMatchIsEquality(found.value, wanted);
        rows := rows - multiset{found.value};
      } else {
        NcpMatchIsEquality(wanted, wanted);
      }
    }

    // The rows of the report, which also come off the copy.
    method TakeReport(data: seq<Byte>) returns (copy: multiset<Row>)
      modifies this
      ensures Taken(old(rows), multiset(Reported(Items(data))), rows, copy)
    {
      copy := rows;
      var rest := data;
      ghost var seen: seq<Row> := [];
      while rest != []
        invariant seen + Reported(Items(rest)) == Reported(Items(data))
        invariant Taken(old(rows), multiset(seen), rows, copy)
        decreases |rest|
      {
        var block := UnpackBlock(rest);
        if block.None? || ItemOf(block.value).None? {
          break;
        }
        var item := ItemOf(block.value).value;
        ReportedStep(rest, seen);
        if !item.isLocal {
          TakenStep(old(rows), multiset(seen), rows, copy, item.row);
          assert multiset(seen + [item.row]) == multiset(seen) + multiset{item.row};
          copy := copy - multiset{item.row};
          WasAdded(item.row);
          seen := seen + [item.row];
        }
        rest := rest[2 + |block.value|..];
      }
      assert Items(rest) == [] && seen + [] == seen;
    }

    // Rows of the NCP's that are left on the copy go, whatever order they are visited in.
    method RemoveLeftovers(copy: multiset<Row>)
      requires forall r :: r in copy ==> IsMasked(r)
      modifies this
      ensures Removed(old(rows), copy, rows)
    {
      var rest := copy;
      while rest != multiset{}
        invariant rest <= copy
        invariant Removed(old(rows), copy - rest, rows)
        decreases |rest|
      {
        var r :| r in rest;
        if r.origin.FromNcp? {
          assert r in copy;
          assert r.(prefix := Masked(r.prefix, r.length)) == r;
          WasRemoved(r.prefix, r);
        }
        rest := rest - multiset{r};
      }
    }

    // handle_ncp_spinel_value_is_ON_MESH_NETS
    method HandleReport(data: seq<Byte>)
      requires forall r :: r in rows ==> IsMasked(r)
      modifies this
      ensures Reconciled(old(rows), multiset(Reported(Items(data))), rows)
      ensures forall r :: r in rows ==> IsMasked(r)
    {
      ghost var reported := multiset(Reported(Items(data)));
      var copy := TakeReport(data);
      ghost var taken := rows;
      RemoveLeftovers(copy);
      ReportedRows(data);
      ReconciledBy(old(rows), reported, taken, copy, rows);
    }
  }

  lemma ReconciledBy(before: multiset<Row>, reported: multiset<Row>, taken: multiset<Row>, copy: multiset<Row>,
                     after: multiset<Row>)
    requires Taken(before, reported, taken, copy) && Removed(taken, copy, after)
    requires forall r :: r in reported ==> r.origin.FromNcp?
    ensures Reconciled(before, reported, after)
  {
  }

  /* What follows for the NCP's rows and for the others. */

  ghost predicate NcpRowsOnce(rows: multiset<Row>) {
    forall r: Row :: r.origin.FromNcp? ==> rows[r] <= 1
  }

  // After a report, the NCP's rows in the table are exactly the rows reported as not local, and
  // nobody else's rows have changed.
  lemma ReportIsTheTruth(before: multiset<Row>, reported: multiset<Row>, after: multiset<Row>, r: Row)
    requires Reconciled(before, reported, after)
    ensures r.origin.FromNcp? ==> (r in after <==> r in reported)
    ensures !r.origin.FromNcp? ==> after[r] == before[r]
  {
  }

  // No row of the NCP's is ever there twice.
  lemma RowsStayUnique(before: multiset<Row>, reported: multiset<Row>, after: multiset<Row>)
    requires Reconciled(before, reported, after) && NcpRowsOnce(before)
    ensures NcpRowsOnce(after)
  {
  }

  // Neither the order of a report nor repetitions in it make a difference.
  lemma OrderAndRepetitionIrrelevant(before: multiset<Row>, one: seq<Row>, two: seq<Row>, after1: multiset<Row>,
                                     after2: multiset<Row>)
    requires NcpRowsOnce(before)
    requires forall r :: r in one <==> r in two
    requires Reconciled(before, multiset(one), after1) && Reconciled(before, multiset(two), after2)
    ensures after1 == after2
  {
    forall r ensures after1[r] == after2[r] {
      assert r in one <==> r in multiset(one);
      assert r in two <==> r in multiset(two);
    }
  }

  // The same report again changes nothing.
  lemma ReportIsIdempotent(before: multiset<Row>, reported: multiset<Row>, after: multiset<Row>, again: multiset<Row>)
    requires NcpRowsOnce(before)
    requires Reconciled(before, reported, after) && Reconciled(after, reported, again)
    ensures again == after
  {
    forall r ensures again[r] == after[r] {
    }
  }
}
