/** The ELM327 receive filter: many identifiers reduced to one 11-bit code and mask. */
module RxFilter {
  import opened CanID

  datatype Mode = Monitor | Poll | Hybrid

  /** The adapter passes a frame when its ID agrees with the code on the mask bits. */
  predicate Passes(code: bv32, mask: bv32, id: bv32) {
    id & mask == code & mask
  }

  function And(a: bv32, b: bv32): bv32 { a & b }

  function Or(a: bv32, b: bv32): bv32 { a | b }

  /** The eleven low bits on which `a` and `o` agree. */
  function SharedBits(a: bv32, o: bv32): bv32 { !(o ^ a) & 0x7FF }

  function AndAll(ids: seq<bv32>): bv32 {
    if ids == [] then 0x7FF else And(AndAll(ids[..|ids| - 1]), ids[|ids| - 1])
  }

  function OrAll(ids: seq<bv32>): bv32 {
    if ids == [] then 0 else Or(OrAll(ids[..|ids| - 1]), ids[|ids| - 1])
  }

  /** An 11-bit mask. */
  predicate Narrow(mask: bv32) {
    mask & 0x7FF == mask
  }

  predicate PassesAll(code: bv32, mask: bv32, ids: seq<bv32>) {
    forall i :: 0 <= i < |ids| ==> Passes(code, mask, ids[i])
  }

  /** combinedFilter: AND of all ids, and the bits they share; the tightest 11-bit filter that passes them all. */
  method CombinedFilter(ids: seq<bv32>) returns (code: bv32, mask: bv32)
    ensures Narrow(code) && Narrow(mask)
    ensures PassesAll(code, mask, ids)
    ensures forall c, m, x | ids != [] && Narrow(m) && PassesAll(c, m, ids) && Passes(code, mask, x) :: Passes(c, m, x)
  {
    hide And, Or, Passes, Narrow, SharedBits;
    code := 0x7FF;
    var orAll: bv32 := 0;
    for i := 0 to |ids|
      invariant code == AndAll(ids[..i]) && orAll == OrAll(ids[..i])
    {
      assert ids[..i + 1][..i] == ids[..i];
      code := And(code, ids[i]);
      orAll := Or(orAll, ids[i]);
    }
    assert ids[..|ids|] == ids;
    mask := SharedBits(code, orAll);
    StaysNarrow(ids);
    AllPass(ids);
    forall c, m, x | ids != [] && Narrow(m) && PassesAll(c, m, ids) && Passes(code, mask, x)
      ensures Passes(c, m, x)
    {
      Tightest(ids, c, m, x);
    }
  }

  // ------------------------------------------------------------------ proofs

  lemma {:induction false} StaysNarrow(ids: seq<bv32>)
    ensures Narrow(AndAll(ids)) && Narrow(SharedBits(AndAll(ids), OrAll(ids)))
  {
    hide Or;
    if ids != [] {
      hide OrAll;
      StaysNarrow(ids[..|ids| - 1]);
    }
  }

  /** Every bit of `a` is in `id`, and every bit of `id` in `o`. */
  predicate Within(a: bv32, id: bv32, o: bv32) {
    a & id == a && o & id == id
  }

  /** Every id lies between the AND and the OR of all of them. */
  lemma {:induction false} Between(ids: seq<bv32>, i: nat)
    requires i < |ids|
    ensures Within(AndAll(ids), ids[i], OrAll(ids))
  {
    hide And, Or, Within;
    var n := |ids| - 1;
    if i < n {
      Between(ids[..n], i);
      WithinStep(AndAll(ids[..n]), OrAll(ids[..n]), ids[n], ids[i]);
    } else {
      WithinLast(AndAll(ids[..n]), OrAll(ids[..n]), ids[n]);
    }
  }

  lemma {:induction false} WithinStep(a: bv32, o: bv32, last: bv32, id: bv32)
    requires Within(a, id, o)
    ensures Within(And(a, last), id, Or(o, last))
  {
    hide And, Or;
    AndStep(a, last, id);
    OrStep(o, last, id);
  }

  lemma {:induction false} AndStep(a: bv32, last: bv32, id: bv32)
    requires a & id == a
    ensures And(a, last) & id == And(a, last)
  {
  }

  lemma {:induction false} OrStep(o: bv32, last: bv32, id: bv32)
    requires o & id == id
    ensures Or(o, last) & id == id
  {
  }

  lemma {:induction false} WithinLast(a: bv32, o: bv32, id: bv32)
    ensures Within(And(a, id), id, Or(o, id))
  {
    hide And, Or;
    AndLast(a, id);
    OrLast(o, id);
  }

  lemma {:induction false} AndLast(a: bv32, id: bv32)
    ensures And(a, id) & id == And(a, id)
  {
  }

  lemma {:induction false} OrLast(o: bv32, id: bv32)
    ensures Or(o, id) & id == id
  {
  }

  lemma {:induction false} WithinPasses(a: bv32, o: bv32, id: bv32)
    requires Within(a, id, o)
    ensures Passes(a, SharedBits(a, o), id)
  {
  }

  lemma {:induction false} AllPass(ids: seq<bv32>)
    ensures PassesAll(AndAll(ids), SharedBits(AndAll(ids), OrAll(ids)), ids)
  {
    hide Passes, Within, SharedBits, AndAll, OrAll;
    forall i | 0 <= i < |ids|
      ensures Passes(AndAll(ids), SharedBits(AndAll(ids), OrAll(ids)), ids[i])
    {
      Between(ids, i);
      WithinPasses(AndAll(ids), OrAll(ids), ids[i]);
    }
  }

  /** On bits where all ids agree with a code, their AND and OR agree with it too. */
  lemma {:induction false} AgreeOnMask(ids: seq<bv32>, code: bv32, mask: bv32)
    requires ids != [] && Narrow(mask) && PassesAll(code, mask, ids)
    ensures Passes(code, mask, AndAll(ids)) && Passes(code, mask, OrAll(ids))
  {
    hide Passes, Narrow, And, Or;
    var n := |ids| - 1;
    var front, last := ids[..n], ids[n];
    if n == 0 {
      assert front == [] && AndAll(front) == 0x7FF && OrAll(front) == 0;
      assert AndAll(ids) == And(0x7FF, last) && OrAll(ids) == Or(0, last);
      AgreeFirst(last, code, mask);
    } else {
      AgreeOnMask(front, code, mask);
      AgreeStep(AndAll(front), OrAll(front), last, code, mask);
    }
  }

  lemma {:induction false} AgreeFirst(id: bv32, code: bv32, mask: bv32)
    requires Narrow(mask) && Passes(code, mask, id)
    ensures Passes(code, mask, And(0x7FF, id)) && Passes(code, mask, Or(0, id))
  {
  }

  lemma {:induction false} AgreeStep(a: bv32, o: bv32, id: bv32, code: bv32, mask: bv32)
    requires Passes(code, mask, a) && Passes(code, mask, o) && Passes(code, mask, id)
    ensures Passes(code, mask, And(a, id)) && Passes(code, mask, Or(o, id))
  {
  }

  lemma {:induction false} NoLooser(a: bv32, o: bv32, code: bv32, mask: bv32, x: bv32)
    requires Narrow(mask) && Passes(code, mask, a) && Passes(code, mask, o)
    requires Passes(a, SharedBits(a, o), x)
    ensures Passes(code, mask, x)
  {
  }

  /** No other 11-bit filter that passes all the ids is stricter. */
  lemma {:induction false} Tightest(ids: seq<bv32>, code: bv32, mask: bv32, x: bv32)
    requires ids != [] && Narrow(mask) && PassesAll(code, mask, ids)
    requires Passes(AndAll(ids), SharedBits(AndAll(ids), OrAll(ids)), x)
    ensures Passes(code, mask, x)
  {
    hide Passes, Narrow, SharedBits, AndAll, OrAll;
    AgreeOnMask(ids, code, mask);
    NoLooser(AndAll(ids), OrAll(ids), code, mask, x);
  }

  // ------------------------------------------------------ what gets installed

  /** New: the identifiers to filter on; polling behind a filter adds the OBD-II response IDs. */
  method ResolveFilters(filters: seq<ID>, mode: Mode, responseFilter: bool, extended: bool) returns (ids: seq<ID>)
    ensures forall x :: x in filters ==> x in ids
    ensures filters == [] ==> ids == []
    ensures mode == Monitor || !responseFilter ==> ids == filters
    ensures filters != [] && responseFilter && mode != Monitor ==>
      Distinct(ids) && forall x: ID :: x in ids <==> x in filters || IsResponseID(x, extended)
  {
    ids := filters;
    if responseFilter && |filters| > 0 && (mode == Poll || mode == Hybrid) {
      var responses := OBDResponseIDs(extended);
      ids := MergeUniqueIDs([filters, responses]);
      forall x: ID
        ensures x in ids <==> x in filters || IsResponseID(x, extended)
      {
        var lists := [filters, responses];
        assert x in filters ==> x in lists[0];
        assert x in responses ==> x in lists[1];
        if IsResponseID(x, extended) {
          assert responses[x - FirstResponseID(extended)] == x;
        }
      }
    }
  }

  function FirstResponseID(extended: bool): ID {
    if extended then 0x18DAF100 else 0x7E8
  }

  /** ISO 15765-4 response identifiers: 7E8-7EF, or the sixteen low 18DAF1xx. */
  predicate IsResponseID(x: ID, extended: bool) {
    FirstResponseID(extended) <= x < FirstResponseID(extended) + if extended then 16 else 8
  }

  /** SetRxFilter for a driver with these resolved identifiers; no identifiers clear the mask. */
  method SetRxFilter(ids: seq<ID>) returns (code: bv32, mask: bv32)
    ensures forall i :: 0 <= i < |ids| ==> Passes(code, mask, ids[i] as bv32)
    ensures ids == [] ==> forall x :: Passes(code, mask, x)
  {
    if |ids| == 0 {
      code, mask := 0, 0;
      forall x
        ensures Passes(code, mask, x)
      {
      }
    } else {
      var bits := seq(|ids|, i requires 0 <= i < |ids| => ids[i] as bv32);
      code, mask := CombinedFilter(bits);
      forall i | 0 <= i < |ids|
        ensures Passes(code, mask, ids[i] as bv32)
      {
        assert Passes(code, mask, bits[i]);
      }
    }
  }

  /** An adapter polled behind a filter still hears every configured ID and every ECU response. */
  method InstallFilters(filters: seq<ID>, mode: Mode, responseFilter: bool) returns (code: bv32, mask: bv32)
    ensures forall x :: x in filters ==> Passes(code, mask, x as bv32)
    ensures mode != Monitor && responseFilter ==>
      forall x: ID :: IsResponseID(x, false) ==> Passes(code, mask, x as bv32)
  {
    hide Passes;
    var ids := ResolveFilters(filters, mode, responseFilter, false);
    code, mask := SetRxFilter(ids);
    forall x: ID | x in ids
      ensures Passes(code, mask, x as bv32)
    {
      var i :| 0 <= i < |ids| && ids[i] == x;
    }
    if mode != Monitor && responseFilter {
      forall x: ID | IsResponseID(x, false)
        ensures Passes(code, mask, x as bv32)
      {
        if filters == [] { assert ids == []; } else { assert x in ids; }
      }
    }
  }
}
