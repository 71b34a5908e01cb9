/**
 * The `Dataset` class of dataset.py: an object whose loader fills its fields
 * line by line, whose `split` cuts rows off the front of its own table, and
 * whose `normalize` rewrites its continuous columns in place. Every method is
 * proved against the functions of `Arff` (loading) and of this module
 * (`SplitRows`, `NormalizedRows`); the read-only accessors live on the value
 * `Snapshot()` returns.
 */
module Datasets {
  import opened Wrappers
  import opened PyText
  import opened PyNumbers
  import opened Tables
  import opened Arff

  /* ---------------- label maps of a nominal attribute ---------------- */

  /**
   * The loop of `_load_attribute` over the comma-separated labels: label `idx`
   * is stripped, gets code `idx`, and a repeated label keeps its last code.
   */
  method BuildLabelMaps(items: seq<string>) returns (s2e: map<string, nat>, e2s: map<nat, string>)
    ensures (s2e, e2s) == LabelMaps(StripAll(items))
  {
    s2e, e2s := map[], map[];
    var labels := StripAll(items);
    assert LabelMaps(labels[..0]).0 == map[];
    assert LabelMaps(labels[..0]).1 == map[];
    var idx := 0;
    while idx < |items|
      invariant 0 <= idx <= |items|
      invariant (s2e, e2s) == LabelMaps(labels[..idx])
    {
      var v := Strip(items[idx]);
      LabelsSnoc(labels[..idx], v);
      CodesSnoc(labels[..idx], v);
      assert labels[..idx + 1] == labels[..idx] + [v];
      e2s := e2s[idx := v];
      s2e := s2e[v := idx];
      idx := idx + 1;
    }
    assert labels[..|items|] == labels;
  }

  /**
   * The part of `_load_attribute` after the name: a continuous type gives
   * empty maps, any other must be `{...}` and its labels are numbered.
   * This is `Arff.TypeLabelMaps`, not a second definition of it: the same
   * outcome, computed with the `BuildLabelMaps` loop the source runs.
   */
  method DeclaredLabelMaps(declared: string) returns (r: Result<(map<string, nat>, map<nat, string>), LoadError>)
    ensures r == TypeLabelMaps(declared)
  {
    if IsContinuousType(declared) {
      return Ok((map[], map[]));
    }
    var items := NominalItems(declared);
    if items.Failure? {
      return Failure(items.error);
    }
    var s2e, e2s := BuildLabelMaps(items.value);
    r := Ok((s2e, e2s));
  }

  /* ---------------- split ---------------- */

  /**
   * How many rows `split` moves into a fold of ratio `ratio` when `n` rows
   * remain: `int(ratio * n)`, read as the end of the slice `[:k]`. For a
   * ratio between 0 and 1 this is the floor of `ratio * n`.
   */
  function FrontCount(ratio: real, n: nat): (k: nat)
    ensures k <= n
  {
    SliceEnd(Trunc(ratio * n as real), n)
  }

  /** For a ratio between 0 and 1, `FrontCount` is the floor of `ratio * n`. */
  lemma FrontCountFloor(ratio: real, n: nat)
    requires 0.0 <= ratio <= 1.0
    ensures FrontCount(ratio, n) as real <= ratio * n as real < FrontCount(ratio, n) as real + 1.0
  {
    var x := ratio * n as real;
    ScaleBetween(ratio, n as real);
    var k := Trunc(x);
    assert k as real <= x <= n as real;
  }

  /** A ratio between 0 and 1 scales a non-negative amount to somewhere between 0 and that amount. */
  lemma ScaleBetween(ratio: real, m: real)
    requires 0.0 <= ratio <= 1.0 && 0.0 <= m
    ensures 0.0 <= ratio * m <= m
  {
    assert m - ratio * m == (1.0 - ratio) * m;
  }

  /** The rows still held by the dataset after cutting one fold for each ratio in `ratios`. */
  function Remaining(ratios: seq<real>, rows: seq<Row>): (rest: seq<Row>)
    ensures |rest| <= |rows|
    decreases |ratios|
  {
    if |ratios| == 0 then rows
    else
      var before := Remaining(ratios[..|ratios| - 1], rows);
      before[FrontCount(ratios[|ratios| - 1], |before|)..]
  }

  /** The fold cut for ratio `ratios[k]`: the front of what the earlier folds left. */
  function Cut(ratios: seq<real>, rows: seq<Row>, k: nat): (fold: seq<Row>)
    requires k < |ratios|
  {
    var before := Remaining(ratios[..k], rows);
    before[..FrontCount(ratios[k], |before|)]
  }

  /**
   * The rows of each dataset `split(ratios)` returns: every fold but the last
   * is cut from the front of the remaining rows, and the last fold is what is
   * left (its own ratio is never read).
   */
  function SplitRows(ratios: seq<real>, rows: seq<Row>): (folds: seq<seq<Row>>)
    ensures |folds| == |ratios|
  {
    seq(|ratios|, k requires 0 <= k < |ratios| =>
      if k < |ratios| - 1 then Cut(ratios, rows, k) else Remaining(ratios[..k], rows))
  }

  function Concat(folds: seq<seq<Row>>): seq<Row>
  {
    if |folds| == 0 then [] else Concat(folds[..|folds| - 1]) + folds[|folds| - 1]
  }

  /** Cutting the fold of ratio `ratios[i]` splits what remained into that fold and the new remainder. */
  lemma CutStep(ratios: seq<real>, rows: seq<Row>, i: nat)
    requires i < |ratios|
    ensures Cut(ratios, rows, i) + Remaining(ratios[..i + 1], rows) == Remaining(ratios[..i], rows)
  {
    assert ratios[..i + 1][..i] == ratios[..i];
    var before := Remaining(ratios[..i], rows);
    var n := FrontCount(ratios[i], |before|);
    assert Remaining(ratios[..i + 1], rows) == before[n..];
    assert before[..n] + before[n..] == before;
  }

  /** The rows of the first `i` folds, in order. */
  function FrontRows(ratios: seq<real>, rows: seq<Row>, i: nat): seq<Row>
    requires i <= |ratios|
  {
    if i == 0 then [] else FrontRows(ratios, rows, i - 1) + Cut(ratios, rows, i - 1)
  }

  /** The first `i` folds, followed by what remains, are the original rows in order. */
  lemma {:induction false} FrontThenRemaining(ratios: seq<real>, rows: seq<Row>, i: nat)
    requires i <= |ratios|
    ensures FrontRows(ratios, rows, i) + Remaining(ratios[..i], rows) == rows
  {
    if i == 0 {
      assert ratios[..0] == [];
    } else {
      FrontThenRemaining(ratios, rows, i - 1);
      CutStep(ratios, rows, i - 1);
      var front, cut := FrontRows(ratios, rows, i - 1), Cut(ratios, rows, i - 1);
      var before, after := Remaining(ratios[..i - 1], rows), Remaining(ratios[..i], rows);
      Regroup(front, cut, after, before, rows);
    }
  }

  /** Splitting the back part of a split sequence again regroups to the same sequence. */
  lemma Regroup(front: seq<Row>, cut: seq<Row>, after: seq<Row>, before: seq<Row>, rows: seq<Row>)
    requires front + before == rows && cut + after == before
    ensures (front + cut) + after == rows
  {
  }

  /** Concatenating the first `i` folds of `SplitRows` gives `FrontRows`. */
  lemma {:induction false} ConcatFolds(ratios: seq<real>, rows: seq<Row>, i: nat)
    requires i < |ratios|
    ensures Concat(SplitRows(ratios, rows)[..i]) == FrontRows(ratios, rows, i)
  {
    var folds := SplitRows(ratios, rows);
    if i > 0 {
      ConcatFolds(ratios, rows, i - 1);
      assert folds[..i][..i - 1] == folds[..i - 1];
      assert folds[..i][i - 1] == Cut(ratios, rows, i - 1);
    }
  }

  /** `split` loses and reorders nothing: the folds concatenated are the original rows. */
  lemma SplitRowsConcat(ratios: seq<real>, rows: seq<Row>)
    requires |ratios| > 0
    ensures Concat(SplitRows(ratios, rows)) == rows
  {
    var folds := SplitRows(ratios, rows);
    var last := |ratios| - 1;
    ConcatFolds(ratios, rows, last);
    FrontThenRemaining(ratios, rows, last);
    assert folds[..|folds|][..last] == folds[..last];
    assert folds[..|folds|] == folds;
  }

  /** The default `split()` of eight rows gives two folds of four. */
  lemma SplitHalvesOfEight(rows: seq<Row>)
    requires |rows| == 8
    ensures |SplitRows([0.5, 0.5], rows)[0]| == 4 && |SplitRows([0.5, 0.5], rows)[1]| == 4
  {
    assert [0.5, 0.5][..1] == [0.5];
    assert [0.5][..0] == [];
  }

  /** `split([1/3, 1/3, 1/3])` of eight rows gives folds of two, two and four. */
  lemma SplitThirdsOfEight(rows: seq<Row>)
    requires |rows| == 8
    ensures var folds := SplitRows([1.0 / 3.0, 1.0 / 3.0, 1.0 / 3.0], rows);
      |folds[0]| == 2 && |folds[1]| == 2 && |folds[2]| == 4
  {
    var t := 1.0 / 3.0;
    assert [t, t, t][..2] == [t, t];
    assert [t, t, t][..1] == [t, t][..1] == [t];
    assert [t][..0] == [];
    assert FrontCount(t, 8) == 2;
    assert FrontCount(t, 6) == 2;
  }

  /* ---------------- normalize ---------------- */

  /** Every row has a numeric (non-MISSING) cell in column `c`. */
  predicate ColumnIsNumeric(rows: seq<Row>, c: nat) {
    forall r :: 0 <= r < |rows| ==> c < |rows[r]| && rows[r][c].Num?
  }

  /** The values of a numeric column, one per row. */
  function ColumnValues(rows: seq<Row>, c: nat): seq<real>
    requires ColumnIsNumeric(rows, c)
  {
    seq(|rows|, r requires 0 <= r < |rows| => rows[r][c].value)
  }

  /** `np.min`: the least value, which occurs in the sequence. */
  function MinOf(xs: seq<real>): (m: real)
    requires |xs| > 0
    ensures m in xs && forall k :: 0 <= k < |xs| ==> m <= xs[k]
  {
    if |xs| == 1 then xs[0]
    else
      var rest := MinOf(xs[1..]);
      if xs[0] <= rest then xs[0] else rest
  }

  /** `np.max`: the greatest value, which occurs in the sequence. */
  function MaxOf(xs: seq<real>): (m: real)
    requires |xs| > 0
    ensures m in xs && forall k :: 0 <= k < |xs| ==> xs[k] <= m
  {
    if |xs| == 1 then xs[0]
    else
      var rest := MaxOf(xs[1..]);
      if xs[0] >= rest then xs[0] else rest
  }

  /** Column `c` is one `normalize` rescales: `is_continuous(c)` holds. */
  predicate Rescales(t: Table, c: nat) {
    t.IsContinuous(c) == Some(true)
  }

  /**
   * Column `c`, if `normalize` rescales it, has real values (no MISSING,
   * which is infinite) and is not constant, so `(x - min) / (max - min)` is a number.
   */
  predicate ColumnNormalizable(t: Table, c: nat) {
    Rescales(t, c) && |t.rows| > 0 ==>
      ColumnIsNumeric(t.rows, c) && MinOf(ColumnValues(t.rows, c)) < MaxOf(ColumnValues(t.rows, c))
  }

  /** Every column `normalize` rescales can be rescaled. */
  predicate Normalizable(t: Table) {
    forall c :: 0 <= c < t.cols ==> ColumnNormalizable(t, c)
  }

  /** `(x - lo) / (hi - lo)`. */
  function Scale(x: real, lo: real, hi: real): real
    requires lo < hi
  {
    (x - lo) / (hi - lo)
  }

  /** `(x - min) / (max - min)` for column `c`. */
  function Rescaled(t: Table, c: nat, x: real): real
    requires Rescales(t, c) && |t.rows| > 0 && ColumnNormalizable(t, c)
  {
    var xs := ColumnValues(t.rows, c);
    Scale(x, MinOf(xs), MaxOf(xs))
  }

  /** The rows of `t` after `normalize` has rescaled the continuous columns before `upto`. */
  function NormalizedRows(t: Table, upto: nat): (rows: seq<Row>)
    requires t.Valid() && Normalizable(t) && upto <= t.cols
    ensures |rows| == |t.rows| && Rectangular(rows, t.cols)
  {
    seq(|t.rows|, r requires 0 <= r < |t.rows| =>
      seq(t.cols, c requires 0 <= c < t.cols =>
        if c < upto && Rescales(t, c) then
          assert ColumnNormalizable(t, c);
          Num(Rescaled(t, c, t.rows[r][c].value))
        else t.rows[r][c]))
  }

  /**
   * Where `normalize` raises at column `c`: `is_continuous(c)` indexes past
   * the last label map, or the column to rescale has no rows for `np.min`.
   */
  predicate FailsAt(t: Table, c: nat) {
    t.IsContinuous(c).None? || (Rescales(t, c) && |t.rows| == 0)
  }

  /** Rescaling a value of column `c` gives a number in [0, 1]. */
  lemma RescaledInUnit(t: Table, c: nat, r: nat)
    requires Normalizable(t) && c < t.cols && Rescales(t, c) && r < |t.rows|
    ensures ColumnIsNumeric(t.rows, c)
    ensures 0.0 <= Rescaled(t, c, t.rows[r][c].value) <= 1.0
  {
    assert ColumnNormalizable(t, c);
    var xs := ColumnValues(t.rows, c);
    assert xs[r] == t.rows[r][c].value;
    UnitFraction(xs[r] - MinOf(xs), MaxOf(xs) - MinOf(xs));
  }

  /** A rescaled cell lies in [0, 1]. */
  lemma NormalizedRange(t: Table, upto: nat, r: nat, c: nat)
    requires t.Valid() && Normalizable(t) && upto <= t.cols
    requires r < |t.rows| && c < upto && Rescales(t, c)
    ensures NormalizedRows(t, upto)[r][c].Num?
    ensures 0.0 <= NormalizedRows(t, upto)[r][c].value <= 1.0
  {
    assert ColumnNormalizable(t, c);
    RescaledInUnit(t, c, r);
  }

  /** A rescaled column's minimum becomes 0 and its maximum 1. */
  lemma NormalizedEnds(t: Table, upto: nat, r: nat, c: nat)
    requires t.Valid() && Normalizable(t) && upto <= t.cols
    requires r < |t.rows| && c < upto && Rescales(t, c)
    ensures ColumnIsNumeric(t.rows, c)
    ensures t.rows[r][c].value == MinOf(ColumnValues(t.rows, c)) ==> NormalizedRows(t, upto)[r][c] == Num(0.0)
    ensures t.rows[r][c].value == MaxOf(ColumnValues(t.rows, c)) ==> NormalizedRows(t, upto)[r][c] == Num(1.0)
  {
    assert ColumnNormalizable(t, c);
    var xs := ColumnValues(t.rows, c);
    assert NormalizedRows(t, upto)[r][c] == Num(Scale(xs[r], MinOf(xs), MaxOf(xs)));
    ScaleEnds(MinOf(xs), MaxOf(xs));
  }

  /** Columns that are not rescaled, nominal ones among them, are left exactly as they were. */
  lemma NormalizedKeepsOthers(t: Table, upto: nat, r: nat, c: nat)
    requires t.Valid() && Normalizable(t) && upto <= t.cols
    requires r < |t.rows| && c < t.cols && (c >= upto || !Rescales(t, c))
    ensures NormalizedRows(t, upto)[r][c] == t.rows[r][c]
  {
  }

  /** `(col - min) / (max - min)` written back into column `c` of every row. */
  function RescaleColumn(rows: seq<Row>, c: nat): (out: seq<Row>)
    requires |rows| > 0 && ColumnIsNumeric(rows, c)
    requires MinOf(ColumnValues(rows, c)) < MaxOf(ColumnValues(rows, c))
    ensures |out| == |rows|
  {
    var xs := ColumnValues(rows, c);
    seq(|rows|, r requires 0 <= r < |rows| => rows[r][c := Num(Scale(xs[r], MinOf(xs), MaxOf(xs)))])
  }

  /** Before column `c` is processed it still holds the original values. */
  lemma ColumnUntouched(t: Table, c: nat)
    requires t.Valid() && Normalizable(t) && c < t.cols && Rescales(t, c) && |t.rows| > 0
    ensures ColumnIsNumeric(t.rows, c)
    ensures ColumnIsNumeric(NormalizedRows(t, c), c)
    ensures ColumnValues(NormalizedRows(t, c), c) == ColumnValues(t.rows, c)
  {
    assert ColumnNormalizable(t, c);
    var before := NormalizedRows(t, c);
    forall r | 0 <= r < |before| ensures before[r][c] == t.rows[r][c] {
      NormalizedKeepsOthers(t, c, r, c);
    }
  }

  /** Row `r` after rescaling column `c`: that cell rescaled, the others as they were. */
  lemma NormalizedStepRow(t: Table, c: nat, r: nat)
    requires t.Valid() && Normalizable(t) && c < t.cols && Rescales(t, c) && r < |t.rows|
    requires ColumnNormalizable(t, c) && ColumnIsNumeric(t.rows, c)
    requires ColumnIsNumeric(NormalizedRows(t, c), c)
    requires ColumnValues(NormalizedRows(t, c), c) == ColumnValues(t.rows, c)
    ensures NormalizedRows(t, c + 1)[r] == RescaleColumn(NormalizedRows(t, c), c)[r]
  {
    assert ColumnNormalizable(t, c);
    var before, after := NormalizedRows(t, c), NormalizedRows(t, c + 1);
    var out := RescaleColumn(before, c);
    forall k | 0 <= k < t.cols ensures after[r][k] == out[r][k] {
      if k != c {
        assert after[r][k] == before[r][k];
      } else {
        assert ColumnValues(t.rows, c)[r] == t.rows[r][c].value;
      }
    }
  }

  /**
   * One iteration of the loop of `normalize`: rescaling column `c`, when it
   * is continuous, moves the table from `upto = c` to `upto = c + 1`.
   */
  lemma NormalizedStep(t: Table, c: nat)
    requires t.Valid() && Normalizable(t) && c < t.cols
    ensures Rescales(t, c) && |t.rows| > 0 ==>
              && ColumnIsNumeric(NormalizedRows(t, c), c)
              && MinOf(ColumnValues(NormalizedRows(t, c), c)) < MaxOf(ColumnValues(NormalizedRows(t, c), c))
              && NormalizedRows(t, c + 1) == RescaleColumn(NormalizedRows(t, c), c)
    ensures !(Rescales(t, c) && |t.rows| > 0) ==> NormalizedRows(t, c + 1) == NormalizedRows(t, c)
  {
    assert ColumnNormalizable(t, c);
    var before, after := NormalizedRows(t, c), NormalizedRows(t, c + 1);
    if Rescales(t, c) && |t.rows| > 0 {
      ColumnUntouched(t, c);
      forall r | 0 <= r < |after| ensures after[r] == RescaleColumn(before, c)[r] {
        NormalizedStepRow(t, c, r);
      }
    } else {
      NormalizedSkips(t, c);
    }
  }

  /** A column that is not rescaled leaves every row as it was. */
  lemma NormalizedSkips(t: Table, c: nat)
    requires t.Valid() && Normalizable(t) && c < t.cols && !(Rescales(t, c) && |t.rows| > 0)
    ensures NormalizedRows(t, c + 1) == NormalizedRows(t, c)
  {
    var before, after := NormalizedRows(t, c), NormalizedRows(t, c + 1);
    forall r | 0 <= r < |after| ensures after[r] == before[r] {
      forall k | 0 <= k < t.cols ensures after[r][k] == before[r][k] {
      }
    }
  }

  /** Nothing is rescaled before the loop starts. */
  lemma NormalizedNothing(t: Table)
    requires t.Valid() && Normalizable(t)
    ensures NormalizedRows(t, 0) == t.rows
  {
    var rows := NormalizedRows(t, 0);
    forall r | 0 <= r < |rows| ensures rows[r] == t.rows[r] {
      forall k | 0 <= k < t.cols ensures rows[r][k] == t.rows[r][k] {
      }
    }
  }

  /** `Scale` sends its lower bound to 0 and its upper bound to 1. */
  lemma ScaleEnds(lo: real, hi: real)
    requires lo < hi
    ensures Scale(lo, lo, hi) == 0.0 && Scale(hi, lo, hi) == 1.0
  {
    var d := hi - lo;
    assert d / d == 1.0;
  }

  /** A quotient of a non-negative amount by a larger one lies in [0, 1]. */
  lemma UnitFraction(a: real, b: real)
    requires 0.0 <= a <= b && b > 0.0
    ensures 0.0 <= a / b <= 1.0
  {
  }

  /** Why `normalize` stops: numpy raises on these. */
  datatype NormalizeError =
    | ColumnBeyondAttributes(col: nat)  // is_continuous(i) indexes past the last label map
    | EmptyColumn(col: nat)             // np.min of a column with no rows
    | NormalizeUnloaded                 // num_attributes of a dataset whose `_data` is still a list

  /** `self.size` on a dataset whose `_data` is still the list `Dataset()` starts with: AttributeError. */
  datatype SplitError = SplitUnloaded

  class Dataset {
    var name: string
    var attributes: seq<string>
    var strToEnum: seq<map<string, nat>>
    var enumToStr: seq<map<nat, string>>
    var data: seq<Row>
    var cols: nat
    /** Whether `_data` is a numpy array (loaded from a file or cut by `split`) rather than the empty list. */
    var loaded: bool

    /** The dataset as a value: what every read-only accessor looks at. */
    function Snapshot(): Table
      reads this
    {
      Table(name, attributes, strToEnum, enumToStr, data, cols)
    }

    predicate Valid()
      reads this
    {
      Snapshot().Valid()
    }

    /** Everything but the rows: what `split` copies into each new fold. */
    function Header(): (string, seq<string>, seq<map<string, nat>>, seq<map<nat, string>>, nat)
      reads this
    {
      (name, attributes, strToEnum, enumToStr, cols)
    }

    /** The loader's state, for the given mode flag and rows collected so far. */
    function LoaderState(readingData: bool, rows: seq<Row>): ParseState
      reads this
    {
      ParseState(name, attributes, strToEnum, enumToStr, readingData, rows)
    }

    /** `Dataset()`: named "Untitled", no attributes, no rows. */
    constructor ()
      ensures Snapshot() == Table("Untitled", [], [], [], [], 0)
      ensures Valid() && !loaded
    {
      loaded := false;
      name := "Untitled";
      attributes := [];
      strToEnum := [];
      enumToStr := [];
      data := [];
      cols := 0;
    }

    /** `_load_relation`: the name becomes the stripped text after `@relation`, unless it holds a space. */
    method LoadRelation(line: string) returns (err: Option<LoadError>)
      modifies this
      ensures attributes == old(attributes) && strToEnum == old(strToEnum) && enumToStr == old(enumToStr)
      ensures data == old(data) && cols == old(cols) && loaded == old(loaded)
      ensures match ParseRelation(line)
        case Ok(n) => err == None && name == n
        case Failure(e) => err == Some(e) && name == old(name)
    {
      match ParseRelation(line)
      case Failure(e) =>
        err := Some(e);
      case Ok(n) =>
        name := n;
        err := None;
    }

    /**
     * `_load_attribute`: appends the name, then the two label maps. The name
     * is appended before the type is checked, so a rejected type leaves the
     * name list one entry longer than the two map lists.
     */
    method LoadAttribute(line: string) returns (err: Option<LoadError>)
      modifies this
      ensures name == old(name) && data == old(data) && cols == old(cols) && loaded == old(loaded)
      ensures ParseAttribute(line).Ok? ==>
                && err == None
                && attributes == old(attributes) + [ParseAttribute(line).value.name]
                && strToEnum == old(strToEnum) + [ParseAttribute(line).value.strToEnum]
                && enumToStr == old(enumToStr) + [ParseAttribute(line).value.enumToStr]
      ensures ParseAttribute(line).Failure? ==>
                && err == Some(ParseAttribute(line).error)
                && strToEnum == old(strToEnum) && enumToStr == old(enumToStr)
                && attributes == old(attributes) + (if SplitAttribute(line).Ok? then [SplitAttribute(line).value.0] else [])
    {
      var split := SplitAttribute(line);
      if split.Failure? {
        ParseAttributeOfSplitFailure(line);
        return Some(split.error);
      }
      var n := split.value.0;
      var declared := split.value.1;
      ParseAttributeOfSplit(line, n, declared);
      attributes := attributes + [n];
      err := AppendLabelMaps(declared);
    }

    /** The end of `_load_attribute`: the label maps of the declared type are appended, or its error returned. */
    method AppendLabelMaps(declared: string) returns (err: Option<LoadError>)
      modifies this
      ensures name == old(name) && attributes == old(attributes) && data == old(data) && cols == old(cols) && loaded == old(loaded)
      ensures TypeLabelMaps(declared).Ok? ==>
                && err == None
                && strToEnum == old(strToEnum) + [TypeLabelMaps(declared).value.0]
                && enumToStr == old(enumToStr) + [TypeLabelMaps(declared).value.1]
      ensures TypeLabelMaps(declared).Failure? ==>
                err == Some(TypeLabelMaps(declared).error) && strToEnum == old(strToEnum) && enumToStr == old(enumToStr)
    {
      var maps := DeclaredLabelMaps(declared);
      if maps.Failure? {
        return Some(maps.error);
      }
      strToEnum := strToEnum + [maps.value.0];
      enumToStr := enumToStr + [maps.value.1];
      err := None;
    }

    /**
     * `_load_datapoint`: the cells of one data line, field by field; an empty
     * field adds nothing, `?` is MISSING, a label of the field's column its
     * code, and anything else is read by `float`.
     */
    method LoadDatapoint(line: string) returns (r: Result<Row, LoadError>)
      ensures r == ParseRow(strToEnum, line)
    {
      var fields := SplitOn(line, ',');
      var row: Row := [];
      if ParseFields(strToEnum, fields, 0).Ok? {
        assert row + ParseFields(strToEnum, fields, 0).value == ParseFields(strToEnum, fields, 0).value;
      }
      var idx := 0;
      while idx < |fields|
        invariant 0 <= idx <= |fields|
        invariant ParseRow(strToEnum, line) ==
                  match ParseFields(strToEnum, fields, idx)
                  case Ok(rest) => Ok(row + rest)
                  case Failure(e) => Failure(e)
      {
        var cell := CellOf(strToEnum, idx, Strip(fields[idx]));
        if cell.Failure? {
          return Failure(cell.error);
        }
        if ParseFields(strToEnum, fields, idx + 1).Ok? {
          var rest := ParseFields(strToEnum, fields, idx + 1).value;
          assert ParseFields(strToEnum, fields, idx) == Ok(OptionToSeq(cell.value) + rest);
          assert row + (OptionToSeq(cell.value) + rest) == (row + OptionToSeq(cell.value)) + rest;
        }
        row := row + OptionToSeq(cell.value);
        idx := idx + 1;
      }
      assert row + [] == row;
      r := Ok(row);
    }

    /**
     * `_load_arff` on the lines of a file: clears the attribute lists, runs
     * the line loop, then shapes the rows into a table. The result is what
     * `ParseArff` says, starting from the dataset's current name.
     */
    method LoadArff(lines: seq<string>) returns (err: Option<LoadError>)
      modifies this
      ensures match ParseArff(old(name), lines)
        case Ok(t) => err == None && Snapshot() == t && loaded
        case Failure(e) => err == Some(e)
    {
      loaded := false;
      data := [];
      cols := 0;
      attributes := [];
      strToEnum := [];
      enumToStr := [];
      var readingData := false;
      var rows: seq<Row> := [];
      var i := 0;
      while i < |lines|
        invariant 0 <= i <= |lines|
        invariant Run(InitialState(old(name)), lines) == Run(LoaderState(readingData, rows), lines[i..])
      {
        var st := LoaderState(readingData, rows);
        assert lines[i..][0] == lines[i] && lines[i..][1..] == lines[i + 1..];
        var line := RStrip(lines[i]);
        if |line| == 0 || line[0] == '%' {
        } else if !readingData {
          if StartsWithIgnoringCase(line, "@relation") {
            var e := LoadRelation(line);
            if e.Some? {
              return e;
            }
          } else if StartsWithIgnoringCase(line, "@attribute") {
            var e := LoadAttribute(line);
            if e.Some? {
              return e;
            }
          } else if StartsWithIgnoringCase(line, "@data") {
            readingData := true;
          }
        } else {
          var r := LoadDatapoint(line);
          match r
          case Failure(e) =>
            return Some(e);
          case Ok(row) =>
            rows := rows + [row];
        }
        assert Step(st, lines[i]) == Ok(LoaderState(readingData, rows));
        i := i + 1;
      }
      var w := if |rows| == 0 then 0 else |rows[0]|;
      if !Rectangular(rows, w) {
        return Some(RaggedRows);
      }
      data := rows;
      cols := w;
      loaded := true;
      err := None;
    }

    /**
     * `normalize`: column by column, a continuous column is rescaled by
     * `(x - min) / (max - min)` and a nominal one is left alone. numpy raises
     * part-way at the first column `FailsAt` names, with the earlier columns
     * already rescaled.
     */
    method Normalize() returns (err: Option<NormalizeError>)
      requires Valid() && Normalizable(Snapshot())
      modifies this
      ensures Header() == old(Header()) && Valid() && loaded == old(loaded)
      ensures !loaded ==> err == Some(NormalizeUnloaded) && data == old(data)
      ensures loaded ==> (err.None? <==> forall c :: 0 <= c < cols ==> !FailsAt(old(Snapshot()), c))
      ensures loaded && err.Some? ==>
                && err.value != NormalizeUnloaded
                && err.value.col < cols && FailsAt(old(Snapshot()), err.value.col)
                && (forall c :: 0 <= c < err.value.col ==> !FailsAt(old(Snapshot()), c))
                && err.value == if old(Snapshot()).IsContinuous(err.value.col).None?
                                then ColumnBeyondAttributes(err.value.col) else EmptyColumn(err.value.col)
      ensures loaded ==> data == NormalizedRows(old(Snapshot()), if err.None? then cols else err.value.col)
    {
      if !loaded {
        return Some(NormalizeUnloaded);
      }
      err := NormalizeColumns();
    }

    /** The loop of `normalize` over `range(self.num_attributes)`, once `_data` is an array. */
    method NormalizeColumns() returns (err: Option<NormalizeError>)
      requires Valid() && Normalizable(Snapshot()) && loaded
      modifies this
      ensures Header() == old(Header()) && Valid() && loaded
      ensures err.None? <==> forall c :: 0 <= c < cols ==> !FailsAt(old(Snapshot()), c)
      ensures err.Some? ==>
                && err.value != NormalizeUnloaded
                && err.value.col < cols && FailsAt(old(Snapshot()), err.value.col)
                && (forall c :: 0 <= c < err.value.col ==> !FailsAt(old(Snapshot()), c))
                && err.value == if old(Snapshot()).IsContinuous(err.value.col).None?
                                then ColumnBeyondAttributes(err.value.col) else EmptyColumn(err.value.col)
      ensures data == NormalizedRows(old(Snapshot()), if err.None? then cols else err.value.col)
    {
      ghost var t := Snapshot();
      NormalizedNothing(t);
      var i := 0;
      while i < cols
        invariant 0 <= i <= cols
        invariant Header() == old(Header()) && Valid() && loaded
        invariant data == NormalizedRows(t, i)
        invariant forall c :: 0 <= c < i ==> !FailsAt(t, c)
      {
        var continuous := Snapshot().IsContinuous(i);
        assert continuous == t.IsContinuous(i);
        if continuous.None? {
          assert FailsAt(t, i);
          return Some(ColumnBeyondAttributes(i));
        }
        if continuous.value && |data| == 0 {
          assert FailsAt(t, i);
          return Some(EmptyColumn(i));
        }
        NormalizeColumn(t, i);
        i := i + 1;
      }
      err := None;
    }

    /** One pass of the loop of `normalize`, on a column that does not fail: rescaled if continuous, kept otherwise. */
    method NormalizeColumn(ghost t: Table, c: nat)
      requires t.Valid() && Normalizable(t) && c < t.cols && !FailsAt(t, c)
      requires Valid() && Header() == (t.name, t.attributes, t.strToEnum, t.enumToStr, t.cols)
      requires data == NormalizedRows(t, c)
      modifies this
      ensures Header() == old(Header()) && Valid() && loaded == old(loaded)
      ensures data == NormalizedRows(t, c + 1)
    {
      NormalizedStep(t, c);
      if Snapshot().IsContinuous(c).value {
        RescaleInPlace(c);
      }
    }

    /** The body of the loop of `normalize` for a continuous column: `(col - min) / (max - min)` written back. */
    method RescaleInPlace(c: nat)
      requires Valid() && c < cols && |data| > 0 && ColumnIsNumeric(data, c)
      requires MinOf(ColumnValues(data, c)) < MaxOf(ColumnValues(data, c))
      modifies this
      ensures Header() == old(Header()) && Valid() && loaded == old(loaded)
      ensures data == RescaleColumn(old(data), c)
    {
      data := RescaleColumn(data, c);
    }

    /**
     * One pass of the loop of `split` for a fold that is not the last: a new
     * dataset with this one's name and attribute lists receives the first
     * `int(ratio * size)` rows, and this dataset keeps the rest.
     */
    method CutFront(ratio: real) returns (d: Dataset)
      requires Valid() && loaded
      modifies this
      ensures fresh(d) && d.Valid() && Valid() && d.loaded && loaded
      ensures d.Header() == old(Header()) && Header() == old(Header())
      ensures var n := FrontCount(ratio, |old(data)|); d.data == old(data)[..n] && data == old(data)[n..]
    {
      d := new Dataset();
      d.name := name;
      d.attributes := attributes;
      d.strToEnum := strToEnum;
      d.enumToStr := enumToStr;
      var n := FrontCount(ratio, |data|);
      d.data := data[..n];
      d.cols := cols;
      d.loaded := true;
      data := data[n..];
    }

    /**
     * `split(ratios)`: one dataset per ratio. Each fold but the last is a new
     * dataset with this one's name and attribute lists, holding rows cut from
     * the front of this dataset's table; this dataset itself is the last fold
     * and keeps the rows that are left. Cutting reads `self.size`, which
     * raises AttributeError on a dataset that was never loaded; with one ratio
     * or none nothing is cut and nothing raises.
     */
    method Split(ratios: seq<real>) returns (folds: seq<Dataset>, err: Option<SplitError>)
      requires Valid()
      modifies this
      ensures err.Some? <==> !loaded && |ratios| >= 2
      ensures err.Some? ==> folds == [] && data == old(data)
      ensures err.None? ==> |folds| == |ratios|
      ensures err.None? && |ratios| > 0 ==> folds[|ratios| - 1] == this
      ensures err.None? ==> forall k :: 0 <= k < |ratios| - 1 ==> fresh(folds[k])
      ensures err.None? ==> forall k :: 0 <= k < |folds| ==> Holds(folds[k], SplitRows(ratios, old(data))[k], old(Header()))
      ensures forall j, k :: 0 <= j < k < |folds| ==> folds[j] != folds[k]
      ensures forall k :: 0 <= k < |folds| ==> folds[k].loaded == loaded
      ensures |ratios| == 0 ==> data == old(data)
      ensures Header() == old(Header()) && loaded == old(loaded)
    {
      folds := [];
      err := None;
      if |ratios| == 0 {
        return;
      }
      if !loaded && |ratios| >= 2 {
        return [], Some(SplitUnloaded);
      }
      ghost var want := SplitRows(ratios, old(data));
      var i := 0;
      // every ratio but the last cuts a new dataset off the front
      while i < |ratios| - 1
        invariant 0 <= i <= |ratios| - 1 && |folds| == i
        invariant Header() == old(Header()) && Valid() && loaded == old(loaded)
        invariant i > 0 ==> loaded
        invariant data == Remaining(ratios[..i], old(data))
        invariant forall k :: 0 <= k < i ==> fresh(folds[k]) && folds[k].loaded && Holds(folds[k], want[k], old(Header()))
        invariant forall j, k :: 0 <= j < k < i ==> folds[j] != folds[k]
      {
        SplitRowsAt(ratios, old(data), i);
        var d := CutFront(ratios[i]);
        assert ratios[..i + 1][..i] == ratios[..i];
        ghost var before := folds;
        folds := folds + [d];
        forall k | 0 <= k < i + 1 ensures fresh(folds[k]) && folds[k].loaded && Holds(folds[k], want[k], old(Header())) {
          if k < i {
            assert folds[k] == before[k];
          }
        }
        i := i + 1;
      }
      // the last ratio is never read: this dataset, holding what is left, is the last fold
      SplitRowsAt(ratios, old(data), i);
      folds := folds + [this];
    }
  }

  /** Dataset `d` holds `rows` under the header `h` and is well formed. */
  ghost predicate Holds(d: Dataset, rows: seq<Row>, h: (string, seq<string>, seq<map<string, nat>>, seq<map<nat, string>>, nat))
    reads d
  {
    d.data == rows && d.Header() == h && d.Valid()
  }

  /** Fold `k` of `SplitRows` is a cut for every fold but the last, and the remainder for the last. */
  lemma SplitRowsAt(ratios: seq<real>, rows: seq<Row>, k: nat)
    requires k < |ratios|
    ensures k < |ratios| - 1 ==> SplitRows(ratios, rows)[k] == Cut(ratios, rows, k)
    ensures k == |ratios| - 1 ==> SplitRows(ratios, rows)[k] == Remaining(ratios[..k], rows)
  {
  }

  /**
   * `Dataset(arff)`: a new dataset loaded from the lines of an ARFF file; the
   * loader's exception becomes the error.
   */
  method FromArff(lines: seq<string>) returns (r: Result<Dataset, LoadError>)
    ensures r.Ok? <==> ParseArff("Untitled", lines).Ok?
    ensures r.Ok? ==> fresh(r.value) && r.value.Snapshot() == ParseArff("Untitled", lines).value && r.value.Valid()
    ensures r.Ok? ==> r.value.loaded
    ensures r.Failure? ==> r.error == ParseArff("Untitled", lines).error
  {
    var d := new Dataset();
    var err := d.LoadArff(lines);
    if err.Some? {
      return Failure(err.value);
    }
    ParseArffValid("Untitled", lines);
    r := Ok(d);
  }
}
