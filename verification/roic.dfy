/**
 * roic_processing.py: return on invested capital, (EBIT - NOPI) / (MktCap -
 * Cash), from four sheet families left-merged on (Stkcd, Accper).
 */
module Roic {
  import opened Tables
  import opened Text
  import opened Loader
  import opened Joins

  /** The merge key; a missing code or date matches another missing one, as in a pandas merge. */
  type Key = (Option<Code>, Option<ParsedDate>)

  /** Profitability sheet row: F050601B is EBIT. */
  datatype ProfitRow = ProfitRow(stkcd: Option<Code>, accper: Option<ParsedDate>, f050601b: Cell)
  /** Income-statement row: B001400000 and B001500000, non-operating income and expense. */
  datatype IncomeRow = IncomeRow(stkcd: Option<Code>, accper: Option<ParsedDate>, b001400000: Cell, b001500000: Cell)
  /** Relative-value sheet row: F100801A is the market capitalisation. */
  datatype ValueRow = ValueRow(stkcd: Option<Code>, accper: Option<ParsedDate>, f100801a: Cell)
  /** Balance-sheet row: A001101000 is cash. */
  datatype BalanceRow = BalanceRow(stkcd: Option<Code>, accper: Option<ParsedDate>, a001101000: Cell)

  /** One of the four tables after column selection and coercion: a key and one number. */
  datatype Keyed = Keyed(key: Key, value: Option<real>)

  /** A row of the merged frame. */
  datatype Merged = Merged(key: Key, ebit: Option<real>, nopi: Option<real>, mktCap: Option<real>, cash: Option<real>)

  /** A row of roic_2.csv; the ratio itself may still be missing. */
  datatype RoicRow = RoicRow(stkcd: Option<Code>, accper: Option<ParsedDate>, roicVar: Option<real>)

  const Patterns: seq<string> := [".xlsx"]

  function Ebit(row: ProfitRow): Keyed
  {
    Keyed((row.stkcd, row.accper), ToNumeric(row.f050601b))
  }

  /** NOPI = B001400000 - B001500000 after coercion. */
  function Nopi(row: IncomeRow): (k: Keyed)
    ensures k.value.Some? <==> ToNumeric(row.b001400000).Some? && ToNumeric(row.b001500000).Some?
    ensures k.value.Some? ==> k.value.value == ToNumeric(row.b001400000).value - ToNumeric(row.b001500000).value
  {
    Keyed((row.stkcd, row.accper), Minus(ToNumeric(row.b001400000), ToNumeric(row.b001500000)))
  }

  function MktCap(row: ValueRow): Keyed
  {
    Keyed((row.stkcd, row.accper), ToNumeric(row.f100801a))
  }

  function Cash(row: BalanceRow): Keyed
  {
    Keyed((row.stkcd, row.accper), ToNumeric(row.a001101000))
  }

  function KeyOf(k: Keyed): Key { k.key }
  function MergedKey(m: Merged): Key { m.key }

  function ValueOf(r: Option<Keyed>): Option<real>
  {
    if r.Some? then r.value.value else None
  }

  function StartMerge(p: Keyed, r: Option<Keyed>): Merged
  {
    Merged(p.key, p.value, ValueOf(r), None, None)
  }

  function AttachMktCap(m: Merged, r: Option<Keyed>): Merged
  {
    m.(mktCap := ValueOf(r))
  }

  function AttachCash(m: Merged, r: Option<Keyed>): Merged
  {
    m.(cash := ValueOf(r))
  }

  /** `prof.merge(inc).merge(rv).merge(bal)`, each `how='left'` on (Stkcd, Accper). */
  function MergeAll(prof: seq<Keyed>, inc: seq<Keyed>, rv: seq<Keyed>, bal: seq<Keyed>): seq<Merged>
  {
    var withNopi := LeftJoin(prof, inc, KeyOf, KeyOf, StartMerge);
    var withCap := LeftJoin(withNopi, rv, MergedKey, KeyOf, AttachMktCap);
    LeftJoin(withCap, bal, MergedKey, KeyOf, AttachCash)
  }

  /** ROIC_var = (EBIT - NOPI) / (MktCap - Cash). */
  function RoicVar(m: Merged): Option<real>
  {
    Divide(Minus(m.ebit, m.nopi), Minus(m.mktCap, m.cash))
  }

  /** The two masks `MktCap > Cash` and `EBIT.notnull()`; comparisons with a missing value are false. */
  predicate Kept(m: Merged)
  {
    m.mktCap.Some? && m.cash.Some? && m.mktCap.value > m.cash.value && m.ebit.Some?
  }

  function RoicOf(m: Merged): Option<RoicRow>
  {
    if Kept(m) then Some(RoicRow(m.key.0, m.key.1, RoicVar(m))) else None
  }

  /** Steps 3-5 of `main` on the four concatenated tables. */
  function RoicTable(prof: seq<ProfitRow>, inc: seq<IncomeRow>, rv: seq<ValueRow>, bal: seq<BalanceRow>): seq<RoicRow>
  {
    var merged := MergeAll(Seq(prof, Ebit), Seq(inc, Nopi), Seq(rv, MktCap), Seq(bal, Cash));
    FilterMap(merged, RoicOf)
  }

  /** `main`: the four loaders in order, each raising on an empty list of frames. */
  function RoicFactor(prof: seq<SheetFile<ProfitRow>>, inc: seq<SheetFile<IncomeRow>>,
                      rv: seq<SheetFile<ValueRow>>, bal: seq<SheetFile<BalanceRow>>): Outcome<RoicRow>
  {
    var p := Concat(Load(prof, Patterns, Skip));
    if p.Err? then Raised(p.error) else
    var i := Concat(Load(inc, Patterns, Skip));
    if i.Err? then Raised(i.error) else
    var v := Concat(Load(rv, Patterns, Skip));
    if v.Err? then Raised(v.error) else
    var b := Concat(Load(bal, Patterns, Skip));
    if b.Err? then Raised(b.error) else
    Written(RoicTable(p.value, i.value, v.value, b.value))
  }

  /** The script raises exactly when one of the four directories gave no frame. */
  lemma RoicRaisesWithoutFrames(prof: seq<SheetFile<ProfitRow>>, inc: seq<SheetFile<IncomeRow>>,
                                rv: seq<SheetFile<ValueRow>>, bal: seq<SheetFile<BalanceRow>>)
    ensures Load(prof, Patterns, Skip).Frames? && Load(inc, Patterns, Skip).Frames?
    ensures Load(rv, Patterns, Skip).Frames? && Load(bal, Patterns, Skip).Frames?
    ensures RoicFactor(prof, inc, rv, bal).Raised? <==>
      Load(prof, Patterns, Skip).frames == [] || Load(inc, Patterns, Skip).frames == []
      || Load(rv, Patterns, Skip).frames == [] || Load(bal, Patterns, Skip).frames == []
    ensures RoicFactor(prof, inc, rv, bal).Raised? ==> RoicFactor(prof, inc, rv, bal).error == NoObjectsToConcatenate
  {
    SkipNeverFails(prof, Patterns);
    SkipNeverFails(inc, Patterns);
    SkipNeverFails(rv, Patterns);
    SkipNeverFails(bal, Patterns);
  }

  /** Every merged row carries the key and the EBIT of some profitability row. */
  lemma MergedFromProfit(prof: seq<Keyed>, inc: seq<Keyed>, rv: seq<Keyed>, bal: seq<Keyed>, m: Merged)
    requires m in MergeAll(prof, inc, rv, bal)
    ensures exists i :: 0 <= i < |prof| && prof[i].key == m.key && prof[i].value == m.ebit
  {
    var withNopi := LeftJoin(prof, inc, KeyOf, KeyOf, StartMerge);
    var withCap := LeftJoin(withNopi, rv, MergedKey, KeyOf, AttachMktCap);
    var m2 := AttachedFrom(withCap, bal, AttachCash, m);
    var m1 := AttachedFrom(withNopi, rv, AttachMktCap, m2);
    StartedFrom(prof, inc, m1);
  }

  /** The left row a later merge stage made `m` from: same key, same EBIT. */
  lemma AttachedFrom(left: seq<Merged>, right: seq<Keyed>, f: (Merged, Option<Keyed>) -> Merged, m: Merged) returns (l: Merged)
    requires f == AttachMktCap || f == AttachCash
    requires m in LeftJoin(left, right, MergedKey, KeyOf, f)
    ensures l in left && l.key == m.key && l.ebit == m.ebit
  {
    LeftJoinOrigin(left, right, MergedKey, KeyOf, f);
    var c :| 0 <= c < |left| && FromLeft(m, left[c], right, MergedKey, KeyOf, f);
    l := left[c];
    if m != f(l, None) {
      var j :| 0 <= j < |right| && KeyOf(right[j]) == MergedKey(l) && m == f(l, Some(right[j]));
    }
  }

  /** The profitability row the first merge made `m` from. */
  lemma StartedFrom(prof: seq<Keyed>, inc: seq<Keyed>, m: Merged)
    requires m in LeftJoin(prof, inc, KeyOf, KeyOf, StartMerge)
    ensures exists i :: 0 <= i < |prof| && prof[i].key == m.key && prof[i].value == m.ebit
  {
    LeftJoinOrigin(prof, inc, KeyOf, KeyOf, StartMerge);
    var a :| 0 <= a < |prof| && FromLeft(m, prof[a], inc, KeyOf, KeyOf, StartMerge);
    if m != StartMerge(prof[a], None) {
      var j :| 0 <= j < |inc| && KeyOf(inc[j]) == KeyOf(prof[a]) && m == StartMerge(prof[a], Some(inc[j]));
    }
  }

  /**
   * With one row per key in each of the other three tables, the merge keeps
   * the profitability rows one for one, in order, each with the values
   * recorded under its key (or nothing where none is recorded).
   */
  lemma MergeIsLookup(prof: seq<Keyed>, inc: seq<Keyed>, rv: seq<Keyed>, bal: seq<Keyed>)
    requires UniqueKeys(inc, KeyOf) && UniqueKeys(rv, KeyOf) && UniqueKeys(bal, KeyOf)
    ensures |MergeAll(prof, inc, rv, bal)| == |prof|
    ensures forall i :: 0 <= i < |prof| ==>
      MergeAll(prof, inc, rv, bal)[i] == Merged(prof[i].key, prof[i].value,
        ValueOf(Lookup(inc, KeyOf, prof[i].key)), ValueOf(Lookup(rv, KeyOf, prof[i].key)), ValueOf(Lookup(bal, KeyOf, prof[i].key)))
  {
    var withNopi := LeftJoin(prof, inc, KeyOf, KeyOf, StartMerge);
    LeftJoinUnique(prof, inc, KeyOf, KeyOf, StartMerge);
    var withCap := LeftJoin(withNopi, rv, MergedKey, KeyOf, AttachMktCap);
    LeftJoinUnique(withNopi, rv, MergedKey, KeyOf, AttachMktCap);
    LeftJoinUnique(withCap, bal, MergedKey, KeyOf, AttachCash);
  }

  /**
   * A kept row has a market capitalisation above its cash and an EBIT; its
   * ratio is defined exactly when NOPI is, and then ratio times (MktCap -
   * Cash) is EBIT - NOPI.
   */
  lemma RoicOfKept(m: Merged)
    requires RoicOf(m).Some?
    ensures m.mktCap.Some? && m.cash.Some? && m.mktCap.value > m.cash.value && m.ebit.Some?
    ensures RoicOf(m).value.roicVar.Some? <==> m.nopi.Some?
    ensures RoicOf(m).value.roicVar.Some? ==>
      RoicOf(m).value.roicVar.value * (m.mktCap.value - m.cash.value) == m.ebit.value - m.nopi.value
  {
  }

  /** An output row is exactly a kept merged row, with the merged key and its ratio. */
  lemma RoicRowsAreKeptMerges(merged: seq<Merged>, out: RoicRow)
    ensures out in FilterMap(merged, RoicOf) <==>
      exists i :: 0 <= i < |merged| && Kept(merged[i]) && out == RoicRow(merged[i].key.0, merged[i].key.1, RoicVar(merged[i]))
  {
    FilterMapMembers(merged, RoicOf, out);
  }

  /** A merged row without NOPI can still be output, with a missing ratio. */
  lemma RoicKeepsMissingNopi(merged: seq<Merged>, i: nat)
    requires i < |merged| && Kept(merged[i]) && merged[i].nopi.None?
    ensures RoicRow(merged[i].key.0, merged[i].key.1, None) in FilterMap(merged, RoicOf)
  {
    RoicRowsAreKeptMerges(merged, RoicRow(merged[i].key.0, merged[i].key.1, None));
  }

  /** `main`: read the four tables, rename and coerce each in place, merge, compute, filter. */
  method Run(prof: seq<SheetFile<ProfitRow>>, inc: seq<SheetFile<IncomeRow>>,
             rv: seq<SheetFile<ValueRow>>, bal: seq<SheetFile<BalanceRow>>) returns (out: Outcome<RoicRow>)
    ensures out == RoicFactor(prof, inc, rv, bal)
  {
    var p := ReadAndConcat(prof, Patterns, Skip);
    var profRows := Concat(p);
    if profRows.Err? {
      return Raised(profRows.error);
    }
    var i := ReadAndConcat(inc, Patterns, Skip);
    var incRows := Concat(i);
    if incRows.Err? {
      return Raised(incRows.error);
    }
    var v := ReadAndConcat(rv, Patterns, Skip);
    var rvRows := Concat(v);
    if rvRows.Err? {
      return Raised(rvRows.error);
    }
    var b := ReadAndConcat(bal, Patterns, Skip);
    var balRows := Concat(b);
    if balRows.Err? {
      return Raised(balRows.error);
    }
    out := Written(RoicTable(profRows.value, incRows.value, rvRows.value, balRows.value));
  }
}
