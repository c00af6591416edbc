/** MF4Parser: from the bytes of a log file to its CAN frames. */
module Mf4Reader {
  import opened Bytes
  import opened Mf4Format
  import opened Mf4Records
  import opened Options

  /** The channel groups met so far, and the last one named CAN_DataFrame. */
  datatype GroupTable = GroupTable(groups: Groups, canCG: Option<Group>)

  /** The group described by the CG block `b`. */
  function GroupOf(file: seq<Byte>, b: Block): (r: Outcome<Group>)
    ensures r.Ok? ==> |b.links| >= 3
  {
    if |b.data| < 28 || |b.links| < 3 then Panics
    else
      var acqName :- ReadText(file, b.links[2]);
      Ok(Group(Uint64At(b.data, 0), Field(b.data, 24, 4), acqName, Field(b.data, 16, 2) % 2 == 1))
  }

  /** Any CG block of at least 28 data bytes and three links describes a group, the shorter ones panic. */
  lemma {:induction false} GroupFields(file: seq<Byte>, b: Block)
    ensures |b.data| < 28 || |b.links| < 3 ==> GroupOf(file, b) == Panics
    ensures |b.data| >= 28 && |b.links| >= 3 ==>
      match ReadText(file, b.links[2])
      case Ok(name) =>
        GroupOf(file, b).Ok? &&
        var g := GroupOf(file, b).value;
        && g.recordID == GetLE(b.data[..8]) && g.dataBytes == GetLE(b.data[24..28]) && g.acqName == name
        && (g.isVLSD <==> b.data[16] % 2 == 1)
      case _ => !GroupOf(file, b).Ok?
  {
    if |b.data| >= 28 {
      var d := b.data;
      assert d[0..8] == d[..8] && d[16..18] == [d[16], d[17]] && d[16..18][1..] == [d[17]] && [d[17]][1..] == [];
      assert GetLE(d[16..18]) == d[16] + 256 * GetLE([d[17]]);
    }
  }

  function AddGroup(t: GroupTable, g: Group): GroupTable {
    GroupTable(t.groups[g.recordID := g], if g.acqName == CAN_DATA_FRAME then Some(g) else t.canCG)
  }

  /** The CG chain from `addr` on. A chain of more than `fuel` blocks, being longer than the file, is a cycle. */
  function GroupChain(file: seq<Byte>, addr: int, fuel: nat, t: GroupTable): Outcome<GroupTable>
    decreases fuel
  {
    if addr == 0 then Ok(t)
    else if fuel == 0 then Diverges
    else
      var b :- BlockAt(file, addr);
      var g :- GroupOf(file, b);
      GroupChain(file, b.links[0], fuel - 1, AddGroup(t, g))
  }

  method ReadGroups(file: seq<Byte>, first: int) returns (r: Outcome<GroupTable>)
    ensures r == GroupChain(file, first, |file|, GroupTable(map[], None))
  {
    hide BlockAt, GroupOf;
    var t := GroupTable(map[], None);
    var cgAddr := first;
    var fuel: nat := |file|;
    while cgAddr != 0
      invariant GroupChain(file, cgAddr, fuel, t) == GroupChain(file, first, |file|, GroupTable(map[], None))
      decreases fuel
    {
      if fuel == 0 { return Diverges; }
      var block := ReadBlock(file, cgAddr);
      if block.IsFailure() { return block.PropagateFailure(); }
      var g := GroupOf(file, block.value);
      if g.IsFailure() { return g.PropagateFailure(); }
      t := AddGroup(t, g.value);
      cgAddr := block.value.links[0];
      fuel := fuel - 1;
    }
    return Ok(t);
  }

  /** The entries of one data group, and the address of the next. */
  function DataGroup(file: seq<Byte>, addr: int): Outcome<(seq<LogEntry>, int)> {
    var dg :- BlockAt(file, addr);
    if |dg.links| < 3 || |dg.data| < 1 then Panics
    else if dg.links[2] == 0 || dg.links[1] == 0 then Ok(([], dg.links[0]))
    else
      var t :- GroupChain(file, dg.links[1], |file|, GroupTable(map[], None));
      if t.canCG == None then Ok(([], dg.links[0]))
      else
        var dtData :- ReadDTData(file, dg.links[2]);
        var entries :- Decoded(dtData, dg.data[0], t.groups, t.canCG.value);
        Ok((entries, dg.links[0]))
  }

  method ParseDG(file: seq<Byte>, addr: int) returns (r: Outcome<(seq<LogEntry>, int)>)
    ensures r == DataGroup(file, addr)
  {
    hide GroupChain, BlockAt, ReadDTData, Decoded;
    var dg := ReadBlock(file, addr);
    if dg.IsFailure() { return dg.PropagateFailure(); }
    var Block(links, data) := dg.value;
    if |links| < 3 || |data| < 1 { return Panics; }
    if links[2] == 0 || links[1] == 0 { return Ok(([], links[0])); }
    var table := ReadGroups(file, links[1]);
    if table.IsFailure() { return table.PropagateFailure(); }
    if table.value.canCG == None { return Ok(([], links[0])); }
    var dtData := ReadDTData(file, links[2]);
    if dtData.IsFailure() { return dtData.PropagateFailure(); }
    var entries := DecodeRecords(dtData.value, data[0], table.value.groups, table.value.canCG.value);
    if entries.IsFailure() { return entries.PropagateFailure(); }
    return Ok((entries.value, links[0]));
  }

  /** The DG chain from `addr` on, entries appended in chain order. */
  function DataGroups(file: seq<Byte>, addr: int, fuel: nat, entries: seq<LogEntry>): Outcome<seq<LogEntry>>
    decreases fuel
  {
    if addr == 0 then Ok(entries)
    else if fuel == 0 then Diverges
    else
      var r :- DataGroup(file, addr);
      DataGroups(file, r.1, fuel - 1, entries + r.0)
  }

  /** Times become offsets from the first entry, in wrapping int64 arithmetic. */
  function Rebase(entries: seq<LogEntry>): (r: seq<LogEntry>)
    ensures |r| == |entries|
  {
    seq(|entries|, i requires 0 <= i < |entries| =>
      entries[i].(offsetNs := Wrap64(entries[i].offsetNs - entries[0].offsetNs)))
  }

  /** What MF4Parser.Parse makes of a file's bytes. */
  function ParseFile(file: seq<Byte>): Outcome<seq<LogEntry>> {
    if |file| < ID_BLOCK_SIZE then Failed
    else
      var hd :- BlockAt(file, ID_BLOCK_SIZE);
      if hd.links == [] then Panics
      else
        var entries :- DataGroups(file, hd.links[0], |file|, []);
        Ok(Rebase(entries))
  }

  method Parse(file: seq<Byte>) returns (r: Outcome<seq<LogEntry>>)
    ensures r == ParseFile(file)
  {
    hide BlockAt, DataGroup;
    if |file| < ID_BLOCK_SIZE { return Failed; }
    var hd := ReadBlock(file, ID_BLOCK_SIZE);
    if hd.IsFailure() { return hd.PropagateFailure(); }
    if hd.value.links == [] { return Panics; }
    var dgAddr: int := hd.value.links[0];
    var allEntries: seq<LogEntry> := [];
    var fuel: nat := |file|;
    while dgAddr != 0
      invariant DataGroups(file, dgAddr, fuel, allEntries) == DataGroups(file, hd.value.links[0], |file|, [])
      decreases fuel
    {
      if fuel == 0 { return Diverges; }
      var group := ParseDG(file, dgAddr);
      if group.IsFailure() { return group.PropagateFailure(); }
      allEntries := allEntries + group.value.0;
      dgAddr := group.value.1;
      fuel := fuel - 1;
    }
    var rebased := RebaseLoop(allEntries);
    return Ok(rebased);
  }

  method RebaseLoop(entries: seq<LogEntry>) returns (out: seq<LogEntry>)
    ensures out == Rebase(entries)
  {
    out := entries;
    if |entries| > 0 {
      var baseNs := entries[0].offsetNs;
      for i := 0 to |entries|
        invariant |out| == |entries|
        invariant forall k :: 0 <= k < i ==> out[k] == Rebase(entries)[k]
        invariant forall k :: i <= k < |entries| ==> out[k] == entries[k]
      {
        out := out[i := out[i].(offsetNs := Wrap64(out[i].offsetNs - baseNs))];
      }
    }
  }

  // ----------------------------------------------------------- chains in order

  /** The entries of a chain of data groups come in chain order, behind those gathered before. */
  lemma {:induction false} DataGroupsInOrder(file: seq<Byte>, addr: int, n: nat, entries: seq<LogEntry>)
    ensures DataGroups(file, addr, n, entries) == Prepend(entries, DataGroups(file, addr, n, []))
    ensures addr == 0 ==> DataGroups(file, addr, n, []) == Ok([])
    ensures addr != 0 && n > 0 && DataGroup(file, addr).Ok? ==>
      var (first, next) := DataGroup(file, addr).value;
      DataGroups(file, addr, n, []) == Prepend(first, DataGroups(file, next, n - 1, []))
    decreases n
  {
    hide DataGroup;
    assert entries + [] == entries;
    if addr != 0 && n > 0 && DataGroup(file, addr).Ok? {
      var (first, next) := DataGroup(file, addr).value;
      assert [] + first == first;
      DataGroupsInOrder(file, next, n - 1, entries + first);
      DataGroupsInOrder(file, next, n - 1, first);
      PrependAssoc(entries, first, DataGroups(file, next, n - 1, []));
    }
  }

  /** A data group without records, channel groups or one for CAN frames has no entries; a short block panics. */
  lemma {:induction false} EmptyDataGroups(file: seq<Byte>, addr: int)
    requires BlockAt(file, addr).Ok?
    ensures
      var dg := BlockAt(file, addr).value;
      if |dg.links| < 3 || |dg.data| < 1 then DataGroup(file, addr) == Panics
      else
        && (dg.links[2] == 0 || dg.links[1] == 0 ==> DataGroup(file, addr) == Ok(([], dg.links[0])))
        && (dg.links[2] != 0 && dg.links[1] != 0 ==>
              var t := GroupChain(file, dg.links[1], |file|, GroupTable(map[], None));
              t.Ok? && t.value.canCG == None ==> DataGroup(file, addr) == Ok(([], dg.links[0])))
  {
    hide GroupChain;
  }

  /** The groups of a CG chain, in chain order. */
  function GroupList(file: seq<Byte>, addr: int, fuel: nat): Outcome<seq<Group>>
    decreases fuel
  {
    if addr == 0 then Ok([])
    else if fuel == 0 then Diverges
    else
      var b :- BlockAt(file, addr);
      var g :- GroupOf(file, b);
      var rest :- GroupList(file, b.links[0], fuel - 1);
      Ok([g] + rest)
  }

  function LastWithID(gs: seq<Group>, id: nat): Option<Group> {
    if gs == [] then None
    else if gs[|gs| - 1].recordID == id then Some(gs[|gs| - 1])
    else LastWithID(gs[..|gs| - 1], id)
  }

  function LastForCAN(gs: seq<Group>): Option<Group> {
    if gs == [] then None
    else if gs[|gs| - 1].acqName == CAN_DATA_FRAME then Some(gs[|gs| - 1])
    else LastForCAN(gs[..|gs| - 1])
  }

  /** What a table says of these groups: the last one with its record ID counts, and the last one for CAN frames. */
  ghost predicate TableOf(t: GroupTable, gs: seq<Group>) {
    && (forall id: nat :: LastWithID(gs, id) == if id in t.groups then Some(t.groups[id]) else None)
    && t.canCG == LastForCAN(gs)
  }

  lemma {:induction false} TableGrows(t: GroupTable, gs: seq<Group>, g: Group)
    requires TableOf(t, gs)
    ensures TableOf(AddGroup(t, g), gs + [g])
  {
    assert (gs + [g])[..|gs|] == gs;
  }

  /** The table read from a chain is that of its groups. */
  lemma {:induction false} ChainIsTable(file: seq<Byte>, addr: int, n: nat, t: GroupTable, before: seq<Group>)
    requires TableOf(t, before)
    ensures GroupChain(file, addr, n, t).Ok? <==> GroupList(file, addr, n).Ok?
    ensures GroupList(file, addr, n).Ok? ==>
      TableOf(GroupChain(file, addr, n, t).value, before + GroupList(file, addr, n).value)
    decreases n
  {
    hide BlockAt, GroupOf, TableOf, AddGroup;
    if addr == 0 {
      assert before + [] == before;
    } else if n > 0 && BlockAt(file, addr).Ok? && GroupOf(file, BlockAt(file, addr).value).Ok? {
      var b := BlockAt(file, addr).value;
      var g := GroupOf(file, b).value;
      var rest := GroupList(file, b.links[0], n - 1);
      TableGrows(t, before, g);
      ChainIsTable(file, b.links[0], n - 1, AddGroup(t, g), before + [g]);
      if rest.Ok? { Regrouped(before, g, rest.value); }
    }
  }

  lemma {:induction false} Regrouped(a: seq<Group>, g: Group, b: seq<Group>)
    ensures a + [g] + b == a + ([g] + b)
  {
  }
}
