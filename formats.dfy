/** The lot table of `dmutils/formats.py` and its two lookups. */
module Formats {

  import opened Results

  /** One entry of `LOTS`. */
  datatype Lot = Lot(lot: string, lotCase: string, labelText: string)

  const Lots: seq<Lot> := [
    Lot("saas", "SaaS", "Software as a Service"),
    Lot("paas", "PaaS", "Platform as a Service"),
    Lot("iaas", "IaaS", "Infrastructure as a Service"),
    Lot("scs", "SCS", "Specialist Cloud Services")
  ]

  /** `[lot for lot in table if lot['lot'] == key]`. */
  function Matching(table: seq<Lot>, key: string): (r: seq<Lot>)
    ensures forall e :: e in r <==> e in table && e.lot == key
  {
    if table == [] then []
    else (if table[0].lot == key then [table[0]] else []) + Matching(table[1..], key)
  }

  /** `lot_to_lot_case(key)`. */
  function LotToLotCase(key: string): (r: Option<string>)
  {
    var found := Matching(Lots, key);
    if found != [] then Some(found[0].lotCase) else None
  }

  /** `get_label_for_lot_param(key)`. */
  function LabelForLot(key: string): (r: Option<string>)
  {
    var found := Matching(Lots, key);
    if found != [] then Some(found[0].labelText) else None
  }

  /** The first entry of the table with the given `lot`, if any. */
  function FirstWithLot(table: seq<Lot>, key: string): Option<Lot>
  {
    if table == [] then None
    else if table[0].lot == key then Some(table[0])
    else FirstWithLot(table[1..], key)
  }

  lemma {:induction false} MatchingHead(table: seq<Lot>, key: string)
    ensures Matching(table, key) == [] <==> FirstWithLot(table, key).None?
    ensures Matching(table, key) != [] ==> Matching(table, key)[0] == FirstWithLot(table, key).value
  {
    if table != [] { MatchingHead(table[1..], key); }
  }

  /** Both lookups read the first entry whose `lot` is exactly the key, and
      give None when there is none. */
  lemma {:induction false} LookupsReadFirstMatch(key: string)
    ensures LotToLotCase(key) == (if FirstWithLot(Lots, key).Some? then Some(FirstWithLot(Lots, key).value.lotCase) else None)
    ensures LabelForLot(key) == (if FirstWithLot(Lots, key).Some? then Some(FirstWithLot(Lots, key).value.labelText) else None)
  {
    MatchingHead(Lots, key);
  }

  /** A key is found exactly when it is one of the four lower-case lot
      names; matching is exact, so other spellings are not found. */
  lemma {:induction false} LookupFound(key: string)
    ensures LotToLotCase(key).Some? <==> key in {"saas", "paas", "iaas", "scs"}
    ensures LabelForLot(key).Some? <==> key in {"saas", "paas", "iaas", "scs"}
  {
    MatchingHead(Lots, key);
    assert Lots[1..][1..][1..][1..] == [];
  }

  /** Every table entry is found by its own `lot`. */
  lemma {:induction false} LookupEachLot(i: nat)
    requires i < |Lots|
    ensures LotToLotCase(Lots[i].lot) == Some(Lots[i].lotCase)
    ensures LabelForLot(Lots[i].lot) == Some(Lots[i].labelText)
  {
    MatchingHead(Lots, Lots[i].lot);
    FirstWithEachLot(i);
  }

  /** The `lot` names of the table are all different. */
  lemma {:induction false} FirstWithEachLot(i: nat)
    requires i < |Lots|
    ensures FirstWithLot(Lots, Lots[i].lot) == Some(Lots[i])
  {
    assert "saas"[0] == 's' && "paas"[0] == 'p' && "iaas"[0] == 'i' && "scs"[0] == 's';
    assert "saas"[1] == 'a' && "scs"[1] == 'c';
    assert Lots[1..] == [Lots[1], Lots[2], Lots[3]];
    assert Lots[1..][1..] == [Lots[2], Lots[3]];
    assert Lots[1..][1..][1..] == [Lots[3]];
  }
}
