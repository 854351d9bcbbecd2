/** The formula catalog page: the generator of `PN###` ids, the id assignment and
    row mapping of spreadsheet and JSON imports, the listing filter, and the
    delete, undo, save and selection handlers over the catalog list. */
module FormulasPage {
  import opened Options
  import opened Domain
  import Seqs
  import Text

  // ---------------------------------------------------------------------------
  // Catalog ids

  const IdPrefix: string := "PN"

  /** `"PN"` followed by `n` left-padded with zeros to three digits. */
  function PnId(n: nat): string {
    IdPrefix + Text.PadStart(Text.NatText(n), 3, '0')
  }

  /** The number the counter scan reads from an id: `parseInt` of what follows
      a leading `"PN"`, or `None` (not a PN id, or `NaN`). */
  function Suffix(id: string): Option<int> {
    if Text.StartsWith(id, IdPrefix) then Text.ParseInt(id[|IdPrefix|..]) else None
  }

  /** Every generated id has the PN form: the prefix, at least three decimal
      digits, and the scan reads the counter back from it. */
  lemma PnIdFormat(n: nat)
    ensures Text.StartsWith(PnId(n), IdPrefix)
    ensures |PnId(n)| >= 5 && Text.AllDigits(PnId(n)[2..])
    ensures n < 1000 ==> |PnId(n)| == 5
    ensures Suffix(PnId(n)) == Some(n as int)
  {
    var digits := Text.PadStart(Text.NatText(n), 3, '0');
    assert PnId(n)[2..] == digits;
    Text.ParsePadded(n, 3);
    if n >= 100 {
      assert |Text.NatText(n / 10)| >= 2 by { TextLength(n / 10); }
    }
    if n < 1000 {
      NatTextShort(n);
    }
  }

  /** The text of a number of at least ten has at least two digits. */
  lemma TextLength(n: nat)
    requires n >= 10
    ensures |Text.NatText(n)| >= 2
  {
    assert Text.NatText(n) == Text.NatText(n / 10) + [Text.DigitChar(n % 10)];
  }

  /** Numbers below one thousand have at most three digits. */
  lemma NatTextShort(n: nat)
    requires n < 1000
    ensures |Text.NatText(n)| <= 3
  {
    if n >= 10 {
      assert Text.NatText(n) == Text.NatText(n / 10) + [Text.DigitChar(n % 10)];
      if n / 10 >= 10 {
        assert Text.NatText(n / 10) == Text.NatText(n / 100) + [Text.DigitChar(n / 10 % 10)];
      }
    }
  }

  /** The first id the generator proposes is the literal `"PN001"`. */
  lemma FirstId()
    ensures PnId(1) == "PN001"
  {
    var digits := Text.PadStart(Text.NatText(1), 3, '0');
    assert Text.NatText(1) == ['1'];
    assert digits == ['0', '0', '1'];
  }

  /** Some member of a non-empty set of ids. */
  ghost function Pick(ids: set<string>): (id: string)
    requires ids != {}
    ensures id in ids
  {
    var id :| id in ids; id
  }

  /** The number an id contributes to the scan, as a set of at most one. */
  function NumberOf(id: string): set<int> {
    var num := Suffix(id);
    if num.Some? then {num.value} else {}
  }

  /** The numbers the scan reads from `ids`. */
  ghost function Suffixes(ids: set<string>): set<int>
    decreases ids
  {
    if ids == {} then {}
    else
      var id := Pick(ids);
      Suffixes(ids - {id}) + NumberOf(id)
  }

  /** The numbers of a set are those of any one member and those of the rest,
      whichever member is taken out. */
  lemma {:induction false} SuffixesRemove(ids: set<string>, y: string)
    requires y in ids
    ensures Suffixes(ids) == Suffixes(ids - {y}) + NumberOf(y)
    decreases ids
  {
    var x := Pick(ids);
    if x != y {
      SuffixesRemove(ids - {x}, y);
      SuffixesRemove(ids - {y}, x);
      assert ids - {x} - {y} == ids - {y} - {x};
    }
  }

  /** The suffix numbers of one more id. */
  lemma SuffixesAdd(done: set<string>, id: string)
    ensures Suffixes(done + {id}) == Suffixes(done) + NumberOf(id)
  {
    if id in done {
      SuffixesRemove(done, id);
      assert done + {id} == done;
    } else {
      SuffixesRemove(done + {id}, id);
      assert done + {id} - {id} == done;
    }
  }

  /** A number is read from `ids` exactly when some id in `ids` yields it. */
  lemma {:induction false} SuffixesMembers(ids: set<string>, n: int)
    ensures n in Suffixes(ids) <==> exists id :: id in ids && Suffix(id) == Some(n)
    decreases ids
  {
    if ids != {} {
      var x := Pick(ids);
      SuffixesMembers(ids - {x}, n);
      if n in Suffixes(ids) && n !in Suffixes(ids - {x}) {
        assert Suffix(x) == Some(n);
      }
      if exists id :: id in ids && Suffix(id) == Some(n) {
        var id :| id in ids && Suffix(id) == Some(n);
        if id != x {
          assert id in ids - {x};
        }
      }
    }
  }

  /** One step of the scan: a number at or above the counter moves the counter
      one past it. */
  function ScanStep(counter: int, num: Option<int>): int {
    if num.Some? && num.value >= counter then num.value + 1 else counter
  }

  /** `c` is what the scan over the suffix numbers `nums` leaves in the counter:
      at least one, above every number, and either one or one past some number. */
  ghost predicate IsScanResult(nums: set<int>, c: int) {
    c >= 1 && (forall n :: n in nums ==> n < c) && (c == 1 || c - 1 in nums)
  }

  /** Scanning one more id keeps the characterisation, whatever the order of
      the scan. */
  lemma ScanStepResult(nums: set<int>, num: Option<int>, c: int)
    requires IsScanResult(nums, c)
    ensures IsScanResult(nums + (if num.Some? then {num.value} else {}), ScanStep(c, num))
  {
  }

  /** The scan result is determined by the set of numbers. */
  lemma ScanResultUnique(nums: set<int>, c1: int, c2: int)
    requires IsScanResult(nums, c1) && IsScanResult(nums, c2)
    ensures c1 == c2
  {
  }

  /** The counter after a scan that reads the numbers `nums`, in any order. */
  ghost function ScanOver(nums: set<int>): (c: int)
    ensures IsScanResult(nums, c)
    decreases nums
  {
    if nums == {} then 1
    else
      assert exists n :: n in nums by {
        if forall n :: n !in nums {
          assert false;
        }
      }
      var n :| n in nums;
      var rest := ScanOver(nums - {n});
      ScanStepResult(nums - {n}, Some(n), rest);
      assert nums - {n} + {n} == nums;
      ScanStep(rest, Some(n))
  }

  /** The counter after the scan of `ids`. */
  ghost function ScanCounter(ids: set<string>): (c: int)
    ensures IsScanResult(Suffixes(ids), c)
  {
    ScanOver(Suffixes(ids))
  }

  /** A PN id is not among `ids` when its number is above every suffix. */
  lemma AboveSuffixes(ids: set<string>, k: nat)
    requires forall n :: n in Suffixes(ids) ==> n < k
    ensures PnId(k) !in ids
  {
    if PnId(k) in ids {
      InSuffixes(ids, k);
    }
  }

  /** The id `generateUniqueId` returns: `"PN001"` when it is free, otherwise
      the id one past the scanned counter. */
  ghost function UniqueId(ids: set<string>): (r: string)
    ensures r !in ids
  {
    if PnId(1) !in ids then PnId(1)
    else
      var c := ScanCounter(ids);
      AboveSuffixes(ids, c + 1);
      PnId(c + 1)
  }

  /** `m` is the largest suffix read from `ids`. */
  ghost predicate LargestSuffix(ids: set<string>, m: int) {
    m in Suffixes(ids) && forall n :: n in Suffixes(ids) ==> n <= m
  }

  /** "PN001" is returned whenever it is free, however large the other PN ids;
      when it is taken the result skips one number past the largest suffix. */
  lemma UniqueIdCases(ids: set<string>)
    ensures "PN001" !in ids ==> UniqueId(ids) == "PN001"
    ensures "PN001" in ids ==>
              var m := ScanCounter(ids) - 1;
              m >= 1 && LargestSuffix(ids, m) && UniqueId(ids) == PnId(m + 2)
  {
    FirstId();
    if PnId(1) in ids {
      InSuffixes(ids, 1);
      ScanTop(Suffixes(ids), ScanCounter(ids));
    }
  }

  /** The number of a PN id among `ids` is among their suffixes. */
  lemma InSuffixes(ids: set<string>, k: nat)
    requires PnId(k) in ids
    ensures k in Suffixes(ids)
  {
    PnIdFormat(k);
    SuffixesRemove(ids, PnId(k));
  }

  /** Once some suffix is positive, the scan result is one past the largest. */
  lemma ScanTop(nums: set<int>, c: int)
    requires IsScanResult(nums, c) && 1 in nums
    ensures c - 1 >= 1 && c - 1 in nums && forall n :: n in nums ==> n <= c - 1
  {
  }

  /** `generateUniqueId`: a scan of the existing ids for the largest PN suffix,
      then a search upwards from `"PN001"` for a free id. */
  method GenerateUniqueId(existingIds: set<string>) returns (newId: string)
    ensures newId == UniqueId(existingIds)
    ensures newId !in existingIds
  {
    var counter := 1;
    newId := PnId(counter);
    var remaining := existingIds;
    while remaining != {}
      invariant remaining <= existingIds
      invariant IsScanResult(Suffixes(existingIds - remaining), counter)
      invariant newId == PnId(1)
      decreases remaining
    {
      var id :| id in remaining;
      ghost var before := counter;
      if Text.StartsWith(id, IdPrefix) {
        var num := Text.ParseInt(id[2..]);
        if num.Some? && num.value >= counter {
          counter := num.value + 1;
        }
      }
      assert counter == ScanStep(before, Suffix(id));
      ScanStepResult(Suffixes(existingIds - remaining), Suffix(id), before);
      assert NumberOf(id) == if Suffix(id).Some? then {Suffix(id).value} else {};
      SuffixesAdd(existingIds - remaining, id);
      assert existingIds - (remaining - {id}) == existingIds - remaining + {id};
      remaining := remaining - {id};
    }
    assert existingIds - remaining == existingIds;
    ghost var scanned := counter;
    UniqueIdFromScan(existingIds, scanned);
    while newId in existingIds
      invariant (newId == PnId(1) && counter == scanned) ||
                (PnId(1) in existingIds && newId == PnId(scanned + 1) && counter == scanned + 1)
      decreases if newId in existingIds then 1 else 0
    {
      counter := counter + 1;
      newId := PnId(counter);
    }
  }

  /** The id the search after a scan with result `c` stops at. */
  lemma UniqueIdFromScan(ids: set<string>, c: int)
    requires IsScanResult(Suffixes(ids), c)
    ensures PnId(c + 1) !in ids
    ensures PnId(1) !in ids ==> UniqueId(ids) == PnId(1)
    ensures PnId(1) in ids ==> UniqueId(ids) == PnId(c + 1)
  {
    ScanResultUnique(Suffixes(ids), c, ScanCounter(ids));
    AboveSuffixes(ids, c + 1);
  }

  // ---------------------------------------------------------------------------
  // Import: id assignment

  function SetOf(s: seq<string>): set<string> {
    set x | x in s
  }

  /** The catalog ids. */
  function IdsOf(formulas: seq<Formula>): set<string> {
    set f | f in formulas :: f.id
  }

  /** A row's own id is kept when it is non-empty and not used yet. */
  predicate Keeps(rowId: Option<string>, used: set<string>) {
    rowId.Some? && rowId.value != "" && rowId.value !in used
  }

  /** The id a row gets when `used` holds the ids taken before it and `generate`
      draws a new id. */
  ghost function ChosenId(rowId: Option<string>, used: set<string>, generate: set<string> -> string): string {
    if Keeps(rowId, used) then rowId.value else generate(used)
  }

  /** The ids the import gives to rows carrying `rowIds`, each row seeing the
      pre-existing ids and those given to the rows before it; the import draws
      new ids with `UniqueId`. */
  ghost function AssignedIds(existing: set<string>, rowIds: seq<Option<string>>,
                             generate: set<string> -> string): (ids: seq<string>)
    ensures |ids| == |rowIds|
    decreases |rowIds|
  {
    if rowIds == [] then []
    else
      var n := |rowIds| - 1;
      var prev := AssignedIds(existing, rowIds[..n], generate);
      prev + [ChosenId(rowIds[n], existing + SetOf(prev), generate)]
  }

  /** With a generator that never repeats a used id, the assigned ids are
      pairwise distinct and used by no catalog formula; each row keeps its own id
      when that is non-empty and unused at its turn, and otherwise gets a
      generated one. */
  lemma {:induction false} AssignedIdsSpec(existing: set<string>, rowIds: seq<Option<string>>,
                                           generate: set<string> -> string)
    requires forall used :: generate(used) !in used
    ensures var ids := AssignedIds(existing, rowIds, generate);
            (forall k :: 0 <= k < |ids| ==> ids[k] !in existing) &&
            Seqs.Distinct(ids) &&
            (forall k :: 0 <= k < |ids| ==>
               var used := existing + SetOf(ids[..k]);
               ids[k] == if Keeps(rowIds[k], used) then rowIds[k].value else generate(used))
    decreases |rowIds|
  {
    if rowIds != [] {
      var n := |rowIds| - 1;
      var prev := AssignedIds(existing, rowIds[..n], generate);
      AssignedIdsSpec(existing, rowIds[..n], generate);
      var ids := AssignedIds(existing, rowIds, generate);
      assert ids[..n] == prev;
      assert ids[n] !in existing + SetOf(prev);
      forall i, j | 0 <= i < j < |ids| ensures ids[i] != ids[j] {
        if j == n {
          assert ids[i] == prev[i] && prev[i] in SetOf(prev);
        } else {
          assert ids[i] == prev[i] && ids[j] == prev[j];
        }
      }
      forall k | 0 <= k < n
        ensures ids[k] == ChosenId(rowIds[k], existing + SetOf(ids[..k]), generate)
      {
        assert ids[..k] == prev[..k] && rowIds[k] == rowIds[..n][k];
      }
    }
  }

  /** The id loop of the import: each row keeps its id when it is non-empty and
      unused, otherwise gets a generated one, and the id joins the used set. */
  method AssignIds(existing: set<string>, rowIds: seq<Option<string>>) returns (ids: seq<string>)
    ensures ids == AssignedIds(existing, rowIds, UniqueId)
  {
    var used := existing;
    ids := [];
    for i := 0 to |rowIds|
      invariant ids == AssignedIds(existing, rowIds[..i], UniqueId)
      invariant used == existing + SetOf(ids)
    {
      var id: string;
      if rowIds[i].None? || rowIds[i].value == "" || rowIds[i].value in used {
        id := GenerateUniqueId(used);
      } else {
        id := rowIds[i].value;
      }
      assert rowIds[..i + 1][..i] == rowIds[..i];
      used := used + {id};
      ids := ids + [id];
    }
    assert rowIds[..|rowIds|] == rowIds;
  }

  // ---------------------------------------------------------------------------
  // Import: row mapping

  /** One imported record after the key lookups: `None` where every key of the
      lookup chain gave a falsy value (missing, empty string, zero). */
  datatype Row = Row(
    id: Option<string>,
    name: Option<string>,
    manufacturer: Option<string>,
    volume_ml: Option<real>,
    kcal: Option<real>,
    protein_g_l: Option<real>,
    nitrogen_g_l: Option<real>,
    glucose_g_l: Option<real>,
    fat_g_l: Option<real>,
    emulsion_type: Option<string>,
    via: Option<string>,
    osmolarity: Option<real>,
    base_cost: Option<real>)

  /** A spreadsheet row read under its Portuguese column headers and under the
      field names. */
  datatype SheetRow = SheetRow(headed: Row, keyed: Row)

  predicate TextTruthy(v: Option<string>) {
    v.Some? && v.value != ""
  }

  predicate NumberTruthy(v: Option<real>) {
    v.Some? && v.value != 0.0
  }

  /** `a || b` over optional text. */
  function EitherText(a: Option<string>, b: Option<string>): Option<string> {
    if TextTruthy(a) then a else b
  }

  /** `a || b` over optional numbers. */
  function EitherNumber(a: Option<real>, b: Option<real>): Option<real> {
    if NumberTruthy(a) then a else b
  }

  /** The spreadsheet lookups: the header column first, then the field name; the
      id is read only from the `ID` column. */
  function SheetToRow(r: SheetRow): (row: Row)
    ensures row.id == r.headed.id
    ensures TextTruthy(r.headed.name) ==> row.name == r.headed.name
    ensures !TextTruthy(r.headed.name) ==> row.name == r.keyed.name
    ensures TextTruthy(r.headed.manufacturer) ==> row.manufacturer == r.headed.manufacturer
    ensures !TextTruthy(r.headed.manufacturer) ==> row.manufacturer == r.keyed.manufacturer
    ensures TextTruthy(r.headed.emulsion_type) ==> row.emulsion_type == r.headed.emulsion_type
    ensures !TextTruthy(r.headed.emulsion_type) ==> row.emulsion_type == r.keyed.emulsion_type
    ensures TextTruthy(r.headed.via) ==> row.via == r.headed.via
    ensures !TextTruthy(r.headed.via) ==> row.via == r.keyed.via
    ensures NumberTruthy(r.headed.volume_ml) ==> row.volume_ml == r.headed.volume_ml
    ensures !NumberTruthy(r.headed.volume_ml) ==> row.volume_ml == r.keyed.volume_ml
    ensures NumberTruthy(r.headed.kcal) ==> row.kcal == r.headed.kcal
    ensures !NumberTruthy(r.headed.kcal) ==> row.kcal == r.keyed.kcal
    ensures NumberTruthy(r.headed.protein_g_l) ==> row.protein_g_l == r.headed.protein_g_l
    ensures !NumberTruthy(r.headed.protein_g_l) ==> row.protein_g_l == r.keyed.protein_g_l
    ensures NumberTruthy(r.headed.nitrogen_g_l) ==> row.nitrogen_g_l == r.headed.nitrogen_g_l
    ensures !NumberTruthy(r.headed.nitrogen_g_l) ==> row.nitrogen_g_l == r.keyed.nitrogen_g_l
    ensures NumberTruthy(r.headed.glucose_g_l) ==> row.glucose_g_l == r.headed.glucose_g_l
    ensures !NumberTruthy(r.headed.glucose_g_l) ==> row.glucose_g_l == r.keyed.glucose_g_l
    ensures NumberTruthy(r.headed.fat_g_l) ==> row.fat_g_l == r.headed.fat_g_l
    ensures !NumberTruthy(r.headed.fat_g_l) ==> row.fat_g_l == r.keyed.fat_g_l
    ensures NumberTruthy(r.headed.osmolarity) ==> row.osmolarity == r.headed.osmolarity
    ensures !NumberTruthy(r.headed.osmolarity) ==> row.osmolarity == r.keyed.osmolarity
    ensures NumberTruthy(r.headed.base_cost) ==> row.base_cost == r.headed.base_cost
    ensures !NumberTruthy(r.headed.base_cost) ==> row.base_cost == r.keyed.base_cost
  {
    var h, k := r.headed, r.keyed;
    Row(h.id,
        EitherText(h.name, k.name),
        EitherText(h.manufacturer, k.manufacturer),
        EitherNumber(h.volume_ml, k.volume_ml),
        EitherNumber(h.kcal, k.kcal),
        EitherNumber(h.protein_g_l, k.protein_g_l),
        EitherNumber(h.nitrogen_g_l, k.nitrogen_g_l),
        EitherNumber(h.glucose_g_l, k.glucose_g_l),
        EitherNumber(h.fat_g_l, k.fat_g_l),
        EitherText(h.emulsion_type, k.emulsion_type),
        EitherText(h.via, k.via),
        EitherNumber(h.osmolarity, k.osmolarity),
        EitherNumber(h.base_cost, k.base_cost))
  }

  function TextOr(v: Option<string>, default: string): string {
    if TextTruthy(v) then v.value else default
  }

  /** `Number(v || 0)`. */
  function NumberOrZero(v: Option<real>): real {
    if v.Some? then v.value else 0.0
  }

  /** The catalog formula an imported row becomes under id `id`. */
  function ToFormula(id: string, r: Row): (f: Formula)
    ensures f.id == id
    ensures TextTruthy(r.name) ==> f.name == r.name.value
    ensures !TextTruthy(r.name) ==> f.name == ""
    ensures TextTruthy(r.manufacturer) ==> f.manufacturer == r.manufacturer.value
    ensures !TextTruthy(r.manufacturer) ==> f.manufacturer == ""
    ensures TextTruthy(r.emulsion_type) ==> f.emulsion_type == r.emulsion_type.value
    ensures !TextTruthy(r.emulsion_type) ==> f.emulsion_type == "LCT"
    ensures TextTruthy(r.via) ==> f.via == r.via.value
    ensures !TextTruthy(r.via) ==> f.via == "Central"
    ensures f.osmolarity.None? <==> !NumberTruthy(r.osmolarity)
    ensures f.osmolarity.Some? ==> f.osmolarity == r.osmolarity && f.osmolarity.value != 0.0
    ensures r.volume_ml.Some? ==> f.volume_ml == r.volume_ml.value
    ensures r.volume_ml.None? ==> f.volume_ml == 0.0
    ensures r.kcal.Some? ==> f.kcal == r.kcal.value
    ensures r.kcal.None? ==> f.kcal == 0.0
    ensures r.protein_g_l.Some? ==> f.protein_g_l == r.protein_g_l.value
    ensures r.protein_g_l.None? ==> f.protein_g_l == 0.0
    ensures r.nitrogen_g_l.Some? ==> f.nitrogen_g_l == r.nitrogen_g_l.value
    ensures r.nitrogen_g_l.None? ==> f.nitrogen_g_l == 0.0
    ensures r.glucose_g_l.Some? ==> f.glucose_g_l == r.glucose_g_l.value
    ensures r.glucose_g_l.None? ==> f.glucose_g_l == 0.0
    ensures r.fat_g_l.Some? ==> f.fat_g_l == r.fat_g_l.value
    ensures r.fat_g_l.None? ==> f.fat_g_l == 0.0
    ensures r.base_cost.Some? ==> f.base_cost == r.base_cost.value
    ensures r.base_cost.None? ==> f.base_cost == 0.0
  {
    Formula(
      id,
      TextOr(r.name, ""),
      TextOr(r.manufacturer, ""),
      NumberOrZero(r.volume_ml),
      NumberOrZero(r.kcal),
      NumberOrZero(r.protein_g_l),
      NumberOrZero(r.nitrogen_g_l),
      NumberOrZero(r.glucose_g_l),
      NumberOrZero(r.fat_g_l),
      TextOr(r.emulsion_type, "LCT"),
      TextOr(r.via, "Central"),
      if NumberTruthy(r.osmolarity) then Some(r.osmolarity.value) else None,
      NumberOrZero(r.base_cost))
  }

  /** An Excel row whose emulsion cells are both falsy (under the header and
      under the field name) imports as "LCT", and one whose route cells are both
      falsy as "Central"; a truthy header cell wins over the field name. */
  lemma SheetDefaults(id: string, r: SheetRow)
    ensures var f := ToFormula(id, SheetToRow(r));
            (!TextTruthy(r.headed.emulsion_type) && !TextTruthy(r.keyed.emulsion_type) ==> f.emulsion_type == "LCT") &&
            (!TextTruthy(r.headed.via) && !TextTruthy(r.keyed.via) ==> f.via == "Central") &&
            (TextTruthy(r.headed.emulsion_type) ==> f.emulsion_type == r.headed.emulsion_type.value) &&
            (TextTruthy(r.headed.via) ==> f.via == r.headed.via.value) &&
            f.id == id
  {
  }

  function RowIds(rows: seq<Row>): (ids: seq<Option<string>>)
    ensures |ids| == |rows|
    ensures forall k :: 0 <= k < |rows| ==> ids[k] == rows[k].id
  {
    Seqs.Map(rows, (r: Row) => r.id)
  }

  /** The formulas an import of `rows` appends to `formulas`. */
  ghost function Imported(formulas: seq<Formula>, rows: seq<Row>): seq<Formula> {
    var ids := AssignedIds(IdsOf(formulas), RowIds(rows), UniqueId);
    seq(|rows|, k requires 0 <= k < |rows| => ToFormula(ids[k], rows[k]))
  }

  /** The imported formulas carry the assigned ids, in row order. */
  lemma ImportedCarriesIds(formulas: seq<Formula>, rows: seq<Row>)
    ensures Ids(Imported(formulas, rows)) == AssignedIds(IdsOf(formulas), RowIds(rows), UniqueId)
  {
  }

  /** Every imported formula gets an id used neither by the catalog nor by another
      imported formula, and keeps its own id when that is non-empty and unused. */
  lemma ImportedIds(formulas: seq<Formula>, rows: seq<Row>)
    ensures var ids := Ids(Imported(formulas, rows));
            |ids| == |rows| &&
            (forall k :: 0 <= k < |ids| ==> ids[k] !in IdsOf(formulas)) &&
            Seqs.Distinct(ids) &&
            (forall k :: 0 <= k < |ids| && Keeps(rows[k].id, IdsOf(formulas) + SetOf(ids[..k])) ==>
               ids[k] == rows[k].id.value)
  {
    ImportedCarriesIds(formulas, rows);
    AssignedIdsSpec(IdsOf(formulas), RowIds(rows), UniqueId);
  }

  /** The catalog after importing `rows`: the old formulas, then the new ones. */
  method ImportRows(formulas: seq<Formula>, rows: seq<Row>) returns (catalog: seq<Formula>)
    ensures catalog == formulas + Imported(formulas, rows)
  {
    var existingIds := set f | f in formulas :: f.id;
    var ids := AssignIds(existingIds, RowIds(rows));
    var importedFormulas := seq(|rows|, k requires 0 <= k < |rows| => ToFormula(ids[k], rows[k]));
    catalog := formulas + importedFormulas;
  }

  /** The spreadsheet import, from the rows of the first sheet. */
  method ImportSheet(formulas: seq<Formula>, sheet: seq<SheetRow>) returns (catalog: seq<Formula>)
    ensures catalog == formulas + Imported(formulas, seq(|sheet|, k requires 0 <= k < |sheet| => SheetToRow(sheet[k])))
  {
    var rows := seq(|sheet|, k requires 0 <= k < |sheet| => SheetToRow(sheet[k]));
    catalog := ImportRows(formulas, rows);
  }

  /** A parsed JSON file: an array of records, an object whose `formulas` member
      is an array (`Some`) or is not (`None`), or any other value. */
  datatype Payload =
    | ArrayPayload(items: seq<Row>)
    | ObjectPayload(formulas: Option<seq<Row>>)
    | OtherPayload

  /** The records a payload offers, or `None` when it has the wrong shape. */
  function PayloadRows(p: Payload): (rows: Option<seq<Row>>)
    ensures p.ArrayPayload? ==> rows == Some(p.items)
    ensures p.ObjectPayload? ==> rows == p.formulas
    ensures p.OtherPayload? ==> rows.None?
  {
    match p
    case ArrayPayload(items) => Some(items)
    case ObjectPayload(fs) => fs
    case OtherPayload => None
  }

  /** The JSON import: a payload of the wrong shape is rejected and the catalog
      stays as it was; otherwise its records are imported. */
  method ImportJson(formulas: seq<Formula>, p: Payload) returns (catalog: seq<Formula>, accepted: bool)
    ensures accepted <==> PayloadRows(p).Some?
    ensures !accepted ==> catalog == formulas
    ensures accepted ==> catalog == formulas + Imported(formulas, PayloadRows(p).value)
  {
    var formulasArray := match p
      case ArrayPayload(items) => Some(items)
      case ObjectPayload(fs) => fs
      case OtherPayload => None;
    if formulasArray.None? {
      return formulas, false;
    }
    catalog := ImportRows(formulas, formulasArray.value);
    accepted := true;
  }

  // ---------------------------------------------------------------------------
  // The listing

  const AllRoutes: string := "Todas"
  const AllManufacturers: string := "Todos"

  /** A formula is listed when its lower-cased name or manufacturer contains the
      lower-cased search text, and it passes the route and manufacturer filters.
      `lower` is the platform's `toLowerCase`, a parameter: the model assumes
      nothing about Unicode case mapping. */
  predicate Listed(f: Formula, search: string, via: string, manufacturer: string, lower: string -> string) {
    var q := lower(search);
    (Text.Contains(lower(f.name), q) || Text.Contains(lower(f.manufacturer), q)) &&
    (via == AllRoutes || f.via == via) &&
    (manufacturer == AllManufacturers || f.manufacturer == manufacturer)
  }

  /** The formulas shown, in catalog order. */
  function Listing(formulas: seq<Formula>, search: string, via: string, manufacturer: string,
                   lower: string -> string): (r: seq<Formula>)
    ensures Seqs.IsSubsequence(r, formulas)
    ensures forall f :: f in r <==> f in formulas && Listed(f, search, via, manufacturer, lower)
  {
    var r := Seqs.Filter(formulas, f => Listed(f, search, via, manufacturer, lower));
    assert forall f :: f in r ==> Listed(f, search, via, manufacturer, lower) by {
      forall f | f in r ensures Listed(f, search, via, manufacturer, lower) {
        var i :| 0 <= i < |r| && r[i] == f;
      }
    }
    r
  }

  /** With an empty search and both filters at "all", the whole catalog is shown,
      for any case mapping that leaves the empty text empty. */
  lemma ListingUnfiltered(formulas: seq<Formula>, lower: string -> string)
    requires lower("") == ""
    ensures Listing(formulas, "", AllRoutes, AllManufacturers, lower) == formulas
  {
    forall f: Formula ensures Listed(f, "", AllRoutes, AllManufacturers, lower) {
      assert Text.OccursAt(lower(f.name), lower(""), 0);
    }
    Seqs.FilterAll(formulas, f => Listed(f, "", AllRoutes, AllManufacturers, lower));
  }

  // ---------------------------------------------------------------------------
  // Deleting, undoing and saving

  /** What a handler leaves: the new catalog, the new selection and, when the
      notification offers one, the catalog its undo action restores. */
  datatype Edit = Edit(catalog: seq<Formula>, selected: set<string>, undo: Option<seq<Formula>>)

  /** `formulas.find(f => f.id === id)`. */
  function Find(formulas: seq<Formula>, id: string): (r: Option<Formula>)
    ensures r.Some? <==> exists k :: 0 <= k < |formulas| && formulas[k].id == id
    ensures r.Some? ==> exists k :: 0 <= k < |formulas| && formulas[k] == r.value &&
                          r.value.id == id && forall j :: 0 <= j < k ==> formulas[j].id != id
    decreases |formulas|
  {
    if formulas == [] then None
    else if formulas[0].id == id then Some(formulas[0])
    else
      var r := Find(formulas[1..], id);
      if r.Some? then
        var k :| 0 <= k < |formulas[1..]| && formulas[1..][k] == r.value &&
                 r.value.id == id && forall j :: 0 <= j < k ==> formulas[1..][j].id != id;
        assert formulas[k + 1] == r.value;
        r
      else
        assert forall k :: 1 <= k < |formulas| ==> formulas[k] == formulas[1..][k - 1];
        r
  }

  /** The formulas with other ids than `id`, in order. */
  function Without(formulas: seq<Formula>, id: string): seq<Formula> {
    Seqs.Filter(formulas, (f: Formula) => f.id != id)
  }

  /** The single delete after confirmation: no target leaves everything as it
      is; otherwise the formulas with the target id go, and the undo action,
      offered only when such a formula was found, appends it after the rest. */
  function DeleteConfirm(formulas: seq<Formula>, selected: set<string>, target: Option<string>): Edit {
    if target.None? || target.value == "" then Edit(formulas, selected, None)
    else
      var deleted := Find(formulas, target.value);
      var rest := Without(formulas, target.value);
      Edit(rest, selected, if deleted.Some? then Some(rest + [deleted.value]) else None)
  }

  predicate DistinctIds(formulas: seq<Formula>) {
    forall i, j :: 0 <= i < j < |formulas| ==> formulas[i].id != formulas[j].id
  }

  /** Deleting removes exactly the formulas with the target id and keeps the
      others in order; undo is offered iff one was found, and restores the same
      formulas with the deleted one moved to the end. */
  lemma DeleteConfirmShape(formulas: seq<Formula>, selected: set<string>, id: string)
    requires id != ""
    ensures var e := DeleteConfirm(formulas, selected, Some(id));
            Seqs.IsSubsequence(e.catalog, formulas) &&
            (forall f :: f in e.catalog <==> f in formulas && f.id != id) &&
            e.selected == selected &&
            (e.undo.Some? <==> id in IdsOf(formulas)) &&
            (e.undo.Some? ==> exists f :: f in formulas && f.id == id && e.undo.value == e.catalog + [f])
  {
    var e := DeleteConfirm(formulas, selected, Some(id));
    forall f | f in formulas && f.id != id ensures f in e.catalog {
      var k :| 0 <= k < |formulas| && formulas[k] == f;
    }
    if id in IdsOf(formulas) {
      var f :| f in formulas && f.id == id;
      var k :| 0 <= k < |formulas| && formulas[k] == f;
    }
  }

  /** With distinct ids, undoing a delete gives back exactly the old formulas. */
  lemma DeleteUndoRestores(formulas: seq<Formula>, selected: set<string>, id: string)
    requires id != "" && DistinctIds(formulas) && id in IdsOf(formulas)
    ensures var e := DeleteConfirm(formulas, selected, Some(id));
            e.undo.Some? && multiset(e.undo.value) == multiset(formulas)
  {
    var f :| f in formulas && f.id == id;
    var k :| 0 <= k < |formulas| && formulas[k] == f;
    var found := Find(formulas, id);
    assert found == Some(f) by {
      var j :| 0 <= j < |formulas| && formulas[j] == found.value && found.value.id == id &&
               forall i :: 0 <= i < j ==> formulas[i].id != id;
      assert j == k;
    }
    OnlyMatch(formulas, k);
    Seqs.FilterPartition(formulas, (g: Formula) => g.id != id, (g: Formula) => g.id == id);
  }

  /** With distinct ids, the formulas with the id of `formulas[k]` are that one. */
  lemma {:induction false} OnlyMatch(formulas: seq<Formula>, k: nat)
    requires k < |formulas| && DistinctIds(formulas)
    ensures Seqs.Filter(formulas, (g: Formula) => g.id == formulas[k].id) == [formulas[k]]
    decreases |formulas|
  {
    var id := formulas[k].id;
    var n := |formulas| - 1;
    var init := formulas[..n];
    assert DistinctIds(init);
    if k == n {
      assert forall g :: g in init ==> g.id != id;
      assert Seqs.Filter(init, (g: Formula) => g.id == id) == [];
    } else {
      OnlyMatch(init, k);
      assert init[k] == formulas[k];
      assert formulas[n].id != id;
    }
  }

  /** The bulk delete: the selected formulas go, the selection is cleared, and
      undo appends the deleted formulas after the remaining ones. */
  function DeleteSelected(formulas: seq<Formula>, selected: set<string>): Edit {
    var deleted := Seqs.Filter(formulas, (f: Formula) => f.id in selected);
    var rest := Seqs.Filter(formulas, (f: Formula) => f.id !in selected);
    Edit(rest, {}, Some(rest + deleted))
  }

  /** Bulk delete keeps exactly the unselected formulas, in order, and its undo
      gives back every formula, however they were ordered. */
  lemma DeleteSelectedShape(formulas: seq<Formula>, selected: set<string>)
    ensures var e := DeleteSelected(formulas, selected);
            Seqs.IsSubsequence(e.catalog, formulas) &&
            (forall f :: f in e.catalog <==> f in formulas && f.id !in selected) &&
            e.selected == {} &&
            e.undo.Some? && multiset(e.undo.value) == multiset(formulas)
  {
    var e := DeleteSelected(formulas, selected);
    forall f | f in formulas && f.id !in selected ensures f in e.catalog {
      var k :| 0 <= k < |formulas| && formulas[k] == f;
    }
    Seqs.FilterPartition(formulas, (f: Formula) => f.id !in selected, (f: Formula) => f.id in selected);
  }

  /** Deleting everything empties the catalog and the selection; undo restores
      the old catalog as it was. */
  function DeleteAll(formulas: seq<Formula>): (e: Edit)
    ensures e.catalog == [] && e.selected == {} && e.undo == Some(formulas)
  {
    Edit([], {}, Some(formulas))
  }

  /** Saving an edited formula: every formula with its id is replaced by it. */
  function Replaced(formulas: seq<Formula>, data: Formula): (r: seq<Formula>)
    ensures |r| == |formulas|
  {
    seq(|formulas|, k requires 0 <= k < |formulas| =>
      if formulas[k].id == data.id then data else formulas[k])
  }

  /** `handleSave`: a form with an id updates the formulas with that id; a form
      without one (the empty id) is appended under a generated id. */
  ghost function Saved(formulas: seq<Formula>, data: Formula): seq<Formula> {
    if data.id != "" then Replaced(formulas, data)
    else formulas + [data.(id := UniqueId(IdsOf(formulas)))]
  }

  /** Saving an existing id replaces only the formulas with that id; saving an id
      no formula has changes nothing. */
  lemma SaveExisting(formulas: seq<Formula>, data: Formula)
    requires data.id != ""
    ensures var r := Saved(formulas, data);
            |r| == |formulas| &&
            (forall k :: 0 <= k < |r| && formulas[k].id != data.id ==> r[k] == formulas[k]) &&
            (forall k :: 0 <= k < |r| && formulas[k].id == data.id ==> r[k] == data) &&
            (data.id !in IdsOf(formulas) ==> r == formulas)
  {
    var r := Saved(formulas, data);
    if data.id !in IdsOf(formulas) {
      forall k | 0 <= k < |r| ensures r[k] == formulas[k] {
        assert formulas[k] in formulas;
      }
    }
  }

  /** Saving a new formula appends it under a fresh id and so keeps the ids
      distinct. */
  lemma SaveNew(formulas: seq<Formula>, data: Formula)
    requires data.id == ""
    ensures var r := Saved(formulas, data);
            |r| == |formulas| + 1 && r[..|formulas|] == formulas &&
            r[|formulas|] == data.(id := r[|formulas|].id) &&
            r[|formulas|].id !in IdsOf(formulas) &&
            (DistinctIds(formulas) ==> DistinctIds(r))
  {
    var r := Saved(formulas, data);
    assert r[..|formulas|] == formulas;
    forall i | 0 <= i < |formulas| ensures r[i].id != r[|formulas|].id {
      assert formulas[i] in formulas;
    }
  }

  // ---------------------------------------------------------------------------
  // Selection

  /** Ticking a row's box. */
  function Toggled(selected: set<string>, id: string): (r: set<string>)
    ensures id in r <==> id !in selected
    ensures forall x :: x != id ==> (x in r <==> x in selected)
  {
    if id in selected then selected - {id} else selected + {id}
  }

  /** Ticking the same box twice restores the selection. */
  lemma ToggleTwice(selected: set<string>, id: string)
    ensures Toggled(Toggled(selected, id), id) == selected
  {
  }

  /** The header box: it clears the selection when its size equals the number of
      listed formulas, and otherwise selects exactly the listed ids. */
  function ToggledAll(selected: set<string>, listed: seq<Formula>): set<string> {
    if |selected| == |listed| then {} else IdsOf(listed)
  }

  /** Appending a formula adds its id to the id set. */
  lemma IdsOfSnoc(init: seq<Formula>, f: Formula)
    ensures IdsOf(init + [f]) == IdsOf(init) + {f.id}
  {
    var all := init + [f];
    forall x | x in IdsOf(all) ensures x in IdsOf(init) + {f.id} {
      var g :| g in all && g.id == x;
    }
    forall x | x in IdsOf(init) ensures x in IdsOf(all) {
      var g :| g in init && g.id == x;
      assert g in all;
    }
    assert f in all;
  }

  /** Appending a formula keeps the ids distinct exactly when its id is new. */
  lemma DistinctSnoc(init: seq<Formula>, f: Formula)
    ensures DistinctIds(init + [f]) <==> DistinctIds(init) && f.id !in IdsOf(init)
  {
    var all := init + [f];
    var n := |init|;
    if f.id in IdsOf(init) {
      var g :| g in init && g.id == f.id;
      var i :| 0 <= i < n && init[i] == g;
      assert all[i].id == all[n].id;
    } else if DistinctIds(init) {
      forall i, j | 0 <= i < j < |all| ensures all[i].id != all[j].id {
        assert all[i] == init[i];
        if j < n {
          assert all[j] == init[j];
        } else {
          assert init[i] in init;
        }
      }
    } else {
      var i, j :| 0 <= i < j < n && init[i].id == init[j].id;
      assert all[i] == init[i] && all[j] == init[j];
    }
  }

  /** The catalog's id set is never larger than the catalog, and it is as
      large exactly when the ids are distinct. */
  lemma {:induction false} IdsOfSize(formulas: seq<Formula>)
    ensures |IdsOf(formulas)| <= |formulas|
    ensures |IdsOf(formulas)| == |formulas| <==> DistinctIds(formulas)
  {
    if formulas == [] {
      assert IdsOf(formulas) == {};
    } else {
      var n := |formulas| - 1;
      var init, f := formulas[..n], formulas[n];
      assert formulas == init + [f];
      IdsOfSize(init);
      IdsOfSnoc(init, f);
      DistinctSnoc(init, f);
    }
  }

  /** The header box decides by size alone. With pairwise distinct listed ids,
      a first click on an incompletely selected listing selects every listed id
      (the box then shows as checked) and a second click clears the selection.
      A selection as large as the listing is cleared even when it holds no
      listed id. With a repeated listed id the listed id set is smaller than
      the listing, so the second click selects the listed ids again instead of
      clearing. */
  lemma ToggleAllTwice(selected: set<string>, listed: seq<Formula>)
    ensures |selected| != |listed| ==> ToggledAll(selected, listed) == IdsOf(listed)
    ensures |selected| != |listed| && DistinctIds(listed) ==>
              |ToggledAll(selected, listed)| == |listed| &&
              ToggledAll(ToggledAll(selected, listed), listed) == {}
    ensures |selected| == |listed| && selected !! IdsOf(listed) ==> ToggledAll(selected, listed) == {}
    ensures |selected| != |listed| && !DistinctIds(listed) ==>
              IdsOf(listed) != {} &&
              ToggledAll(ToggledAll(selected, listed), listed) == IdsOf(listed)
  {
    IdsOfSize(listed);
    if !DistinctIds(listed) {
      assert listed[0] in listed;
      assert listed[0].id in IdsOf(listed);
    }
  }
}
