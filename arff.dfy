/**
 * What `Dataset._load_arff` computes, as functions over the file's lines
 * (dataset.py lines 135-231). The loader reads line by line with one mode flag,
 * `readingData`; `Step` is one iteration of that loop, `Run` the whole loop and
 * `ParseArff` the loop followed by the conversion to a 2-D array.
 */
module Arff {
  import opened Wrappers
  import opened PyText
  import opened PyNumbers
  import opened Tables

  /** The exceptions the loader can raise, one constructor per raising site. */
  datatype LoadError =
    | RelationNameHasSpace(relation: string)  // the assert of _load_relation
    | EmptyAttributeLine                      // arff_line[0] on an empty declaration
    | UnclosedQuote                           // str.index finds no closing quote
    | EmptyAttributeType(attribute: string)   // attr_def[0] on an empty type
    | UnbracedNominal(declared: string)       // the assert on "{...}"
    | FieldBeyondAttributes(index: nat)       // _str_to_enum[idx] past the last attribute
    | NotANumber(field: string)               // float(field) raises ValueError
    | RaggedRows                              // np.array of rows of different lengths

  /** One parsed `@attribute` declaration: its name and its two label maps. */
  datatype Attribute = Attribute(name: string, strToEnum: map<string, nat>, enumToStr: map<nat, string>)

  /* ---------------- @relation ---------------- */

  /** `_load_relation`: the text after the 9-character keyword, stripped; a space in it is rejected. */
  function ParseRelation(line: string): (r: Result<string, LoadError>)
    ensures r.Ok? ==> ' ' !in r.value
    ensures r.Ok? ==> r.value == [] || (!IsSpace(r.value[0]) && !IsSpace(r.value[|r.value| - 1]))
    ensures r.Failure? <==> ' ' in Strip(Drop(line, 9))
    ensures r.Ok? ==> r.value == Strip(Drop(line, 9))
    ensures r.Failure? ==> r.error == RelationNameHasSpace(Strip(Drop(line, 9)))
  {
    var name := Strip(Drop(line, 9));
    StripSpec(Drop(line, 9));
    if ' ' in name then Failure(RelationNameHasSpace(name)) else Ok(name)
  }

  /** The header line `@RELATION <name>` reads back as `<name>`, for any name the loader accepts. */
  lemma RelationHeaderRoundTrip(name: string)
    requires ' ' !in name
    requires name == [] || (!IsSpace(name[0]) && !IsSpace(name[|name| - 1]))
    ensures ParseRelation("@RELATION " + name) == Ok(name)
  {
    var line := "@RELATION " + name;
    var padded := " " + name;
    assert Drop(line, 9) == padded;
    if name == [] {
      assert RStrip(padded) == RStrip([]);
    } else {
      assert padded[|padded| - 1] == name[|name| - 1];
      assert RStrip(padded) == padded;
      assert padded[1..] == name;
      assert LStrip(padded) == LStrip(name) == name;
    }
  }

  /* ---------------- @attribute ---------------- */

  /**
   * The name and the type text of an `@attribute` line: a quoted name runs to
   * the next quote and the type is the stripped rest; otherwise the name is the
   * `\w*` prefix and the type is the rest of the line with all whitespace removed.
   */
  function SplitAttribute(line: string): (r: Result<(string, string), LoadError>)
    ensures r.Failure? ==> r.error == EmptyAttributeLine || r.error == UnclosedQuote
    ensures r.Ok? ==> '\'' !in r.value.0
  {
    var rest := Strip(Drop(line, 10));
    if rest == [] then Failure(EmptyAttributeLine)
    else if rest[0] == '\'' then
      var quoted := rest[1..];
      if '\'' !in quoted then Failure(UnclosedQuote)
      else
        var q := IndexOf(quoted, '\'');
        Ok((quoted[..q], Strip(quoted[q + 1..])))
    else
      var name := WordPrefix(rest);
      Ok((name, RemoveSpaces(UpToNewline(SkipSpaces(rest[|name|..])))))
  }

  /** An attribute line fails exactly when nothing follows the keyword or an opening quote is never closed. */
  lemma SplitAttributeFails(line: string)
    ensures var rest := Strip(Drop(line, 10));
      SplitAttribute(line).Failure? <==> rest == [] || (rest[0] == '\'' && '\'' !in rest[1..])
  {
  }

  /** A quoted attribute name is the text between the first two quotes, and the type is the rest of the line, stripped. */
  lemma SplitAttributeQuoted(line: string)
    requires SplitAttribute(line).Ok? && Strip(Drop(line, 10))[0] == '\''
    ensures var rest := Strip(Drop(line, 10));
      var name := SplitAttribute(line).value.0;
      && "'" + name + "'" <= rest
      && SplitAttribute(line).value.1 == Strip(rest[|name| + 2..])
  {
    var rest := Strip(Drop(line, 10));
    var quoted := rest[1..];
    var q := IndexOf(quoted, '\'');
    assert "'" + quoted[..q] + "'" == rest[..q + 2];
    assert quoted[q + 1..] == rest[q + 2..];
  }

  /**
   * An unquoted attribute name is the longest run of word characters at the
   * start, and the type text after it holds no whitespace. On a line without
   * a newline the type is the whole rest of the line after the name, with
   * its whitespace removed.
   */
  lemma SplitAttributeUnquoted(line: string)
    requires SplitAttribute(line).Ok? && Strip(Drop(line, 10))[0] != '\''
    ensures var rest := Strip(Drop(line, 10));
      var name := SplitAttribute(line).value.0;
      && name <= rest
      && (forall k :: 0 <= k < |name| ==> IsWordChar(name[k]))
      && (|name| < |rest| ==> !IsWordChar(rest[|name|]))
    ensures forall k :: 0 <= k < |SplitAttribute(line).value.1| ==> !IsSpace(SplitAttribute(line).value.1[k])
    ensures var rest := Strip(Drop(line, 10));
      '\n' !in rest ==> SplitAttribute(line).value.1 == RemoveSpaces(rest[|SplitAttribute(line).value.0|..])
  {
    var rest := Strip(Drop(line, 10));
    var x := rest[|WordPrefix(rest)|..];
    if '\n' !in rest {
      assert forall k :: 0 <= k < |x| ==> x[k] == rest[|WordPrefix(rest)| + k];
      TypeTextWithoutNewline(x);
    }
  }

  /** `real`, `continuous` or `integer`, in any case. */
  predicate IsContinuousType(declared: string) {
    var low := Lower(declared);
    low == "real" || low == "continuous" || low == "integer"
  }

  /** The comma-separated items between the braces of a nominal type, not yet stripped. */
  function NominalItems(declared: string): (r: Result<seq<string>, LoadError>)
    ensures r.Ok? ==> |r.value| >= 1
    ensures r.Ok? <==> |declared| >= 2 && declared[0] == '{' && declared[|declared| - 1] == '}'
  {
    if declared == [] then Failure(EmptyAttributeType(declared))
    else if declared[0] != '{' || declared[|declared| - 1] != '}' then Failure(UnbracedNominal(declared))
    else
      assert |declared| != 1;
      Ok(SplitOn(declared[1..|declared| - 1], ','))
  }

  function StripAll(items: seq<string>): seq<string>
  {
    seq(|items|, k requires 0 <= k < |items| => Strip(items[k]))
  }

  /** Every label keeps its place, has no whitespace at either end, and stripping the labels again changes nothing. */
  lemma StripAllClean(items: seq<string>)
    ensures |StripAll(items)| == |items|
    ensures forall k :: 0 <= k < |items| ==>
              var l := StripAll(items)[k]; l == [] || (!IsSpace(l[0]) && !IsSpace(l[|l| - 1]))
    ensures StripAll(StripAll(items)) == StripAll(items)
  {
    var labels := StripAll(items);
    forall k | 0 <= k < |items| ensures labels[k] == [] || (!IsSpace(labels[k][0]) && !IsSpace(labels[k][|labels[k]| - 1])) {
      StripSpec(items[k]);
    }
    forall k | 0 <= k < |items| ensures Strip(labels[k]) == labels[k] {
      StripNoEdges(labels[k]);
    }
  }

  /** The last position holding `label`: later declarations of a label overwrite its code. */
  function LastIndex(labels: seq<string>, l: string): (i: nat)
    requires l in labels
    ensures i < |labels| && labels[i] == l
    ensures forall j :: i < j < |labels| ==> labels[j] != l
  {
    if labels[|labels| - 1] == l then |labels| - 1
    else LastIndex(labels[..|labels| - 1], l)
  }

  /** The two label maps of a nominal attribute: code i -> label i, and each label -> its last code. */
  function LabelMaps(labels: seq<string>): (map<string, nat>, map<nat, string>)
  {
    (map l | l in labels :: LastIndex(labels, l),
     map i | 0 <= i < |labels| :: labels[i])
  }

  /** Declaring one more label makes its position that label's code, replacing any earlier one. */
  lemma LabelsSnoc(labels: seq<string>, l: string)
    ensures LabelMaps(labels + [l]).0 == LabelMaps(labels).0[l := |labels|]
  {
    var ext := labels + [l];
    var m, m' := LabelMaps(labels).0, LabelMaps(ext).0;
    assert ext[..|ext| - 1] == labels;
    forall x | x in labels && x != l ensures LastIndex(ext, x) == LastIndex(labels, x) { }
    assert m'.Keys == m[l := |labels|].Keys;
  }

  /** Declaring one more label gives the next code to that label. */
  lemma CodesSnoc(labels: seq<string>, l: string)
    ensures LabelMaps(labels + [l]).1 == LabelMaps(labels).1[|labels| := l]
  {
    var ext := labels + [l];
    assert LabelMaps(ext).1.Keys == LabelMaps(labels).1[|labels| := l].Keys;
  }

  /** The label maps translate codes to labels and labels back to codes. */
  lemma LabelMapsInverse(labels: seq<string>)
    ensures forall i :: i in LabelMaps(labels).1 <==> 0 <= i < |labels|
    ensures forall l :: l in LabelMaps(labels).0 <==> l in labels
    ensures forall i :: 0 <= i < |labels| ==> LabelMaps(labels).1[i] == labels[i]
    ensures forall l :: l in LabelMaps(labels).0 ==>
              var code := LabelMaps(labels).0[l]; code in LabelMaps(labels).1 && LabelMaps(labels).1[code] == l
    ensures (forall i, j :: 0 <= i < j < |labels| ==> labels[i] != labels[j]) ==>
              forall i :: 0 <= i < |labels| ==> LabelMaps(labels).0[labels[i]] == i
  {
    var (s2e, e2s) := LabelMaps(labels);
    forall l | l in s2e ensures s2e[l] in e2s && e2s[s2e[l]] == l {
      assert s2e[l] == LastIndex(labels, l);
    }
    if forall i, j :: 0 <= i < j < |labels| ==> labels[i] != labels[j] {
      forall i | 0 <= i < |labels| ensures s2e[labels[i]] == i {
        var k := LastIndex(labels, labels[i]);
        assert labels[k] == labels[i];
      }
    }
  }

  /** `attribute_value` gives back the label of any code the loader assigned to a nominal column. */
  lemma AttributeValueOfLabel(t: Table, col: nat, labels: seq<string>, l: string)
    requires col < |t.enumToStr| && col < |t.strToEnum|
    requires t.strToEnum[col] == LabelMaps(labels).0 && t.enumToStr[col] == LabelMaps(labels).1
    requires l in labels
    ensures l in t.strToEnum[col]
    ensures t.AttributeValue(col, t.strToEnum[col][l]) == Some(l)
  {
    LabelMapsInverse(labels);
  }

  /** The label maps a declared type gives: none for a continuous type, the nominal labels' otherwise. */
  function TypeLabelMaps(declared: string): Result<(map<string, nat>, map<nat, string>), LoadError>
  {
    if IsContinuousType(declared) then Ok((map[], map[]))
    else match NominalItems(declared)
      case Failure(e) => Failure(e)
      case Ok(items) => Ok(LabelMaps(StripAll(items)))
  }

  /** `_load_attribute` (dataset.py lines 176-214) as a value. */
  function ParseAttribute(line: string): Result<Attribute, LoadError>
  {
    match SplitAttribute(line)
    case Failure(e) => Failure(e)
    case Ok((name, declared)) =>
      match TypeLabelMaps(declared)
      case Failure(e) => Failure(e)
      case Ok(maps) => Ok(Attribute(name, maps.0, maps.1))
  }

  /** Once the line splits into a name and a type, the attribute is that name with the type's label maps. */
  lemma ParseAttributeOfSplit(line: string, name: string, declared: string)
    requires SplitAttribute(line) == Ok((name, declared))
    ensures ParseAttribute(line) == match TypeLabelMaps(declared)
      case Failure(e) => Failure(e)
      case Ok(maps) => Ok(Attribute(name, maps.0, maps.1))
  {
  }

  /** A line that does not split into a name and a type is rejected with the split's error. */
  lemma ParseAttributeOfSplitFailure(line: string)
    requires SplitAttribute(line).Failure?
    ensures ParseAttribute(line) == Failure(SplitAttribute(line).error)
  {
  }

  /**
   * An attribute has empty label maps exactly when its type is one of the
   * continuous keywords; a nominal type always yields at least one label.
   */
  lemma ParseAttributeContinuousIff(line: string)
    requires ParseAttribute(line).Ok?
    ensures var a := ParseAttribute(line).value;
      (|a.enumToStr| == 0 <==> IsContinuousType(SplitAttribute(line).value.1))
      && (|a.strToEnum| == 0 <==> |a.enumToStr| == 0)
  {
    var a := ParseAttribute(line).value;
    var declared := SplitAttribute(line).value.1;
    if !IsContinuousType(declared) {
      var labels := StripAll(NominalItems(declared).value);
      assert 0 in a.enumToStr;
      assert labels[0] in a.strToEnum;
    }
  }

  /* ---------------- data rows ---------------- */

  /**
   * One stripped field at position `idx` of a data row: None when empty (no
   * column), `?` the MISSING value, a label of column `idx` its code, anything
   * else `float(field)`.
   */
  function CellOf(strToEnum: seq<map<string, nat>>, idx: nat, field: string): Result<Option<Cell>, LoadError>
  {
    if field == [] then Ok(None)
    else if field == "?" then Ok(Some(Missing))
    else if idx >= |strToEnum| then Failure(FieldBeyondAttributes(idx))
    else if field in strToEnum[idx] then Ok(Some(Num(strToEnum[idx][field] as real)))
    else match ParseFloat(field)
      case None => Failure(NotANumber(field))
      case Some(c) => Ok(Some(c))
  }

  function OptionToSeq(c: Option<Cell>): seq<Cell> {
    if c.Some? then [c.value] else []
  }

  /** The cells of `fields[from..]`, in order; the first failing field's error otherwise. */
  function ParseFields(strToEnum: seq<map<string, nat>>, fields: seq<string>, from: nat): Result<Row, LoadError>
    requires from <= |fields|
    decreases |fields| - from
  {
    if from == |fields| then Ok([])
    else match CellOf(strToEnum, from, Strip(fields[from]))
      case Failure(e) => Failure(e)
      case Ok(c) =>
        match ParseFields(strToEnum, fields, from + 1)
        case Failure(e) => Failure(e)
        case Ok(rest) => Ok(OptionToSeq(c) + rest)
  }

  /** `_load_datapoint`: the comma-separated fields of a data line, each stripped, as cells. */
  function ParseRow(strToEnum: seq<map<string, nat>>, line: string): Result<Row, LoadError>
  {
    ParseFields(strToEnum, SplitOn(line, ','), 0)
  }

  /** A field that is not empty once stripped: only these add a column. */
  predicate IsNonEmptyField(field: string) {
    |Strip(field)| > 0
  }

  /** Positions in `fields[from..]` whose stripped text is not empty, in increasing order. */
  function NonEmptyPositions(fields: seq<string>, from: nat): (ps: seq<int>)
    requires from <= |fields|
    ensures forall j :: 0 <= j < |ps| ==> from <= ps[j] < |fields|
    decreases |fields| - from
  {
    if from == |fields| then []
    else
      var rest := NonEmptyPositions(fields, from + 1);
      if IsNonEmptyField(fields[from]) then [from] + rest else rest
  }

  /** `NonEmptyPositions` lists every non-empty field once, in increasing order, and nothing else. */
  lemma {:induction false} NonEmptyPositionsExact(fields: seq<string>, from: nat)
    requires from <= |fields|
    ensures forall j :: 0 <= j < |NonEmptyPositions(fields, from)| ==>
              IsNonEmptyField(fields[NonEmptyPositions(fields, from)[j]])
    ensures forall j, k :: 0 <= j < k < |NonEmptyPositions(fields, from)| ==>
              NonEmptyPositions(fields, from)[j] < NonEmptyPositions(fields, from)[k]
    ensures forall p :: from <= p < |fields| && IsNonEmptyField(fields[p]) ==> p in NonEmptyPositions(fields, from)
    decreases |fields| - from
  {
    NonEmptyPositionsListed(fields, from);
    NonEmptyPositionsIncreasing(fields, from);
    NonEmptyPositionsComplete(fields, from);
  }

  /** Every listed position holds a non-empty field. */
  lemma {:induction false} NonEmptyPositionsListed(fields: seq<string>, from: nat)
    requires from <= |fields|
    ensures forall j :: 0 <= j < |NonEmptyPositions(fields, from)| ==>
              IsNonEmptyField(fields[NonEmptyPositions(fields, from)[j]])
    decreases |fields| - from
  {
    if from < |fields| {
      NonEmptyPositionsListed(fields, from + 1);
    }
  }

  /** The positions are listed in increasing order. */
  lemma {:induction false} NonEmptyPositionsIncreasing(fields: seq<string>, from: nat)
    requires from <= |fields|
    ensures forall j, k :: 0 <= j < k < |NonEmptyPositions(fields, from)| ==>
              NonEmptyPositions(fields, from)[j] < NonEmptyPositions(fields, from)[k]
    decreases |fields| - from
  {
    if from < |fields| {
      NonEmptyPositionsIncreasing(fields, from + 1);
    }
  }

  /** Every non-empty field from `from` on is listed. */
  lemma {:induction false} NonEmptyPositionsComplete(fields: seq<string>, from: nat)
    requires from <= |fields|
    ensures forall p :: from <= p < |fields| && IsNonEmptyField(fields[p]) ==> p in NonEmptyPositions(fields, from)
    decreases |fields| - from
  {
    if from < |fields| {
      NonEmptyPositionsComplete(fields, from + 1);
    }
  }

  /**
   * What a non-empty stripped field `v` at position `p` becomes: `?` the MISSING
   * value; otherwise a label of column `p` gives its code, and any other text
   * is read as a number.
   */
  predicate FieldGives(strToEnum: seq<map<string, nat>>, p: nat, v: string, c: Cell) {
    if v == "?" then c == Missing
    else if p >= |strToEnum| then false
    else if v in strToEnum[p] then c == Num(strToEnum[p][v] as real)
    else ParseFloat(v) == Some(c)
  }

  /** A data row has one cell per non-empty field, in field order, each as `FieldGives` says. */
  lemma {:induction false} ParseFieldsCells(strToEnum: seq<map<string, nat>>, fields: seq<string>, from: nat)
    requires from <= |fields|
    requires ParseFields(strToEnum, fields, from).Ok?
    ensures var row := ParseFields(strToEnum, fields, from).value;
            var ps := NonEmptyPositions(fields, from);
      && |row| == |ps|
      && forall j :: 0 <= j < |ps| ==> FieldGives(strToEnum, ps[j], Strip(fields[ps[j]]), row[j])
    decreases |fields| - from
  {
    if from < |fields| {
      var v := Strip(fields[from]);
      CellOfGives(strToEnum, from, v);
      ParseFieldsCells(strToEnum, fields, from + 1);
      var c := CellOf(strToEnum, from, v).value;
      var rest := ParseFields(strToEnum, fields, from + 1).value;
      var row := ParseFields(strToEnum, fields, from).value;
      assert row == OptionToSeq(c) + rest;
      var ps, tail := NonEmptyPositions(fields, from), NonEmptyPositions(fields, from + 1);
      if c.Some? {
        assert ps == [from] + tail && row == [c.value] + rest;
        FieldsGiveCons(strToEnum, fields, from, tail, c.value, rest);
      } else {
        assert ps == tail && row == rest;
      }
    }
  }

  /** A cell for field `from` in front of cells for the positions `tail` gives cells for `[from] + tail`. */
  lemma FieldsGiveCons(strToEnum: seq<map<string, nat>>, fields: seq<string>, from: nat, tail: seq<int>, c: Cell, rest: seq<Cell>)
    requires from < |fields| && |tail| == |rest|
    requires forall j :: 0 <= j < |tail| ==> 0 <= tail[j] < |fields|
    requires FieldGives(strToEnum, from, Strip(fields[from]), c)
    requires forall j :: 0 <= j < |tail| ==> FieldGives(strToEnum, tail[j], Strip(fields[tail[j]]), rest[j])
    ensures var ps, row := [from] + tail, [c] + rest;
      forall j :: 0 <= j < |ps| ==> FieldGives(strToEnum, ps[j], Strip(fields[ps[j]]), row[j])
  {
    var ps, row := [from] + tail, [c] + rest;
    forall j | 0 <= j < |ps| ensures FieldGives(strToEnum, ps[j], Strip(fields[ps[j]]), row[j]) {
      if j > 0 {
        assert ps[j] == tail[j - 1] && row[j] == rest[j - 1];
      }
    }
  }

  /** A field that parses gives a cell exactly when it is not empty, and that cell is the one `FieldGives` describes. */
  lemma CellOfGives(strToEnum: seq<map<string, nat>>, p: nat, v: string)
    requires CellOf(strToEnum, p, v).Ok?
    ensures CellOf(strToEnum, p, v).value.Some? <==> v != []
    ensures CellOf(strToEnum, p, v).value.Some? ==> FieldGives(strToEnum, p, v, CellOf(strToEnum, p, v).value.value)
  {
  }

  /** A row fails exactly when one of its fields does, and then with the first such field's error. */
  lemma {:induction false} ParseFieldsFailure(strToEnum: seq<map<string, nat>>, fields: seq<string>, from: nat)
    requires from <= |fields|
    ensures ParseFields(strToEnum, fields, from).Failure? <==>
              exists p :: from <= p < |fields| && CellOf(strToEnum, p, Strip(fields[p])).Failure?
    ensures ParseFields(strToEnum, fields, from).Failure? ==>
              exists p :: && from <= p < |fields|
                          && CellOf(strToEnum, p, Strip(fields[p])) == Failure(ParseFields(strToEnum, fields, from).error)
                          && forall q :: from <= q < p ==> CellOf(strToEnum, q, Strip(fields[q])).Ok?
    decreases |fields| - from
  {
    if from < |fields| {
      ParseFieldsFailure(strToEnum, fields, from + 1);
      if CellOf(strToEnum, from, Strip(fields[from])).Ok? && ParseFields(strToEnum, fields, from + 1).Failure? {
        var p :| && from + 1 <= p < |fields|
                 && CellOf(strToEnum, p, Strip(fields[p])) == Failure(ParseFields(strToEnum, fields, from + 1).error)
                 && forall q :: from + 1 <= q < p ==> CellOf(strToEnum, q, Strip(fields[q])).Ok?;
        assert forall q :: from <= q < p ==> CellOf(strToEnum, q, Strip(fields[q])).Ok?;
      }
    }
  }

  /* ---------------- the line loop ---------------- */

  /** The loader's state between two lines. */
  datatype ParseState = ParseState(
    name: string,
    attributes: seq<string>,
    strToEnum: seq<map<string, nat>>,
    enumToStr: seq<map<nat, string>>,
    readingData: bool,
    rows: seq<Row>)

  function InitialState(name: string): ParseState {
    ParseState(name, [], [], [], false, [])
  }

  /** After `rstrip`, empty or starting with `%`: skipped in both sections. */
  predicate IsSkipped(raw: string) {
    var line := RStrip(raw);
    |line| == 0 || line[0] == '%'
  }

  /** One iteration of the loop of `_load_arff`. */
  function Step(st: ParseState, raw: string): Result<ParseState, LoadError>
  {
    var line := RStrip(raw);
    if |line| == 0 || line[0] == '%' then Ok(st)
    else if !st.readingData then
      if StartsWithIgnoringCase(line, "@relation") then
        match ParseRelation(line)
        case Failure(e) => Failure(e)
        case Ok(n) => Ok(st.(name := n))
      else if StartsWithIgnoringCase(line, "@attribute") then
        match ParseAttribute(line)
        case Failure(e) => Failure(e)
        case Ok(a) =>
          Ok(st.(attributes := st.attributes + [a.name],
                 strToEnum := st.strToEnum + [a.strToEnum],
                 enumToStr := st.enumToStr + [a.enumToStr]))
      else if StartsWithIgnoringCase(line, "@data") then Ok(st.(readingData := true))
      else Ok(st)
    else
      match ParseRow(st.strToEnum, line)
      case Failure(e) => Failure(e)
      case Ok(row) => Ok(st.(rows := st.rows + [row]))
  }

  /** The whole loop: the lines in order, stopping at the first error. */
  function Run(st: ParseState, lines: seq<string>): Result<ParseState, LoadError>
    decreases |lines|
  {
    if lines == [] then Ok(st)
    else match Step(st, lines[0])
      case Failure(e) => Failure(e)
      case Ok(next) => Run(next, lines[1..])
  }

  /**
   * `_load_arff` on the lines of a file, for a dataset whose name was `name`
   * (the loader keeps it unless a `@relation` line replaces it). The rows must
   * form a rectangle for `np.array` to give a 2-D table.
   */
  function ParseArff(name: string, lines: seq<string>): Result<Table, LoadError>
  {
    match Run(InitialState(name), lines)
    case Failure(e) => Failure(e)
    case Ok(st) =>
      var cols := if |st.rows| == 0 then 0 else |st.rows[0]|;
      if Rectangular(st.rows, cols) then
        Ok(Table(st.name, st.attributes, st.strToEnum, st.enumToStr, st.rows, cols))
      else Failure(RaggedRows)
  }

  /** A blank or comment line changes nothing, before or after `@data`. */
  lemma SkippedLineIsIgnored(st: ParseState, raw: string)
    requires IsSkipped(raw)
    ensures Step(st, raw) == Ok(st)
  {
  }

  /** Before `@data`, a line that starts with none of the three keywords changes nothing. */
  lemma HeaderIgnoresOtherLines(st: ParseState, raw: string)
    requires !st.readingData
    requires !StartsWithIgnoringCase(RStrip(raw), "@relation")
    requires !StartsWithIgnoringCase(RStrip(raw), "@attribute")
    requires !StartsWithIgnoringCase(RStrip(raw), "@data")
    ensures Step(st, raw) == Ok(st)
  {
  }

  /** The lines of `lines` that are neither blank nor comments. */
  function CountUnskipped(lines: seq<string>): nat {
    if lines == [] then 0 else (if IsSkipped(lines[0]) then 0 else 1) + CountUnskipped(lines[1..])
  }

  /**
   * The data section read on its own: the row of every line that is not
   * skipped, in order, or the error of the first line that does not parse.
   */
  function DataRows(strToEnum: seq<map<string, nat>>, lines: seq<string>): Result<seq<Row>, LoadError>
    decreases |lines|
  {
    if lines == [] then Ok([])
    else if IsSkipped(lines[0]) then DataRows(strToEnum, lines[1..])
    else match ParseRow(strToEnum, RStrip(lines[0]))
      case Failure(e) => Failure(e)
      case Ok(row) =>
        match DataRows(strToEnum, lines[1..])
        case Failure(e) => Failure(e)
        case Ok(rest) => Ok([row] + rest)
  }

  /**
   * After `@data`, the loop appends to the rows read so far exactly the rows
   * of the data section, in order, and leaves the header alone; it fails with
   * the data section's first error.
   */
  lemma {:induction false} DataLinesBecomeRows(st: ParseState, lines: seq<string>)
    requires st.readingData
    ensures Run(st, lines) == match DataRows(st.strToEnum, lines)
      case Failure(e) => Failure(e)
      case Ok(rs) => Ok(st.(rows := st.rows + rs))
    decreases |lines|
  {
    if lines == [] {
      assert st.rows + [] == st.rows;
    } else if IsSkipped(lines[0]) {
      SkippedLineIsIgnored(st, lines[0]);
      DataLinesBecomeRows(st, lines[1..]);
    } else {
      DataLineStep(st, lines[0]);
      match ParseRow(st.strToEnum, RStrip(lines[0]))
      case Failure(e) =>
      case Ok(row) =>
        var next := st.(rows := st.rows + [row]);
        DataLinesBecomeRows(next, lines[1..]);
        match DataRows(st.strToEnum, lines[1..])
        case Failure(e) =>
        case Ok(rest) =>
          assert next.rows + rest == st.rows + ([row] + rest);
    }
  }

  /** After `@data`, a line that is not skipped is parsed as a row and appended. */
  lemma DataLineStep(st: ParseState, raw: string)
    requires st.readingData && !IsSkipped(raw)
    ensures Step(st, raw) == match ParseRow(st.strToEnum, RStrip(raw))
      case Failure(e) => Failure(e)
      case Ok(row) => Ok(st.(rows := st.rows + [row]))
  {
  }

  /** Each line of the data section that is not skipped gives exactly one row. */
  lemma {:induction false} DataRowsCount(strToEnum: seq<map<string, nat>>, lines: seq<string>)
    requires DataRows(strToEnum, lines).Ok?
    ensures |DataRows(strToEnum, lines).value| == CountUnskipped(lines)
    decreases |lines|
  {
    if lines != [] {
      DataRowsCount(strToEnum, lines[1..]);
    }
  }

  predicate Aligned(st: ParseState) {
    |st.strToEnum| == |st.attributes| && |st.enumToStr| == |st.attributes|
  }

  /** Each attribute line adds one entry to each of the three lists, so they stay the same length. */
  lemma {:induction false} RunKeepsAligned(st: ParseState, lines: seq<string>)
    requires Aligned(st)
    requires Run(st, lines).Ok?
    ensures Aligned(Run(st, lines).value)
    ensures |Run(st, lines).value.attributes| >= |st.attributes|
    decreases |lines|
  {
    if lines != [] {
      RunKeepsAligned(Step(st, lines[0]).value, lines[1..]);
    }
  }

  /** A loaded dataset satisfies the table invariant. */
  lemma ParseArffValid(name: string, lines: seq<string>)
    requires ParseArff(name, lines).Ok?
    ensures ParseArff(name, lines).value.Valid()
  {
    RunKeepsAligned(InitialState(name), lines);
  }
}
