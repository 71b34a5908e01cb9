/**
 * The value of a `Dataset`: its relation name, the three per-attribute lists
 * (names, label-to-code maps, code-to-label maps) and its numeric table. The
 * read-only accessors of dataset.py (`get`, `get_attribute_column`,
 * `attribute_name`, `is_continuous`, `size`, `num_attributes`) and the
 * `inputs`/`targets` views are defined here, once, on that value.
 */
module Tables {
  import opened Wrappers
  import opened PyNumbers

  type Row = seq<Cell>

  /** Every row has exactly `cols` cells (a 2-D numpy array). */
  predicate Rectangular(rows: seq<Row>, cols: nat) {
    forall r :: 0 <= r < |rows| ==> |rows[r]| == cols
  }

  datatype Table = Table(
    name: string,
    attributes: seq<string>,
    strToEnum: seq<map<string, nat>>,
    enumToStr: seq<map<nat, string>>,
    rows: seq<Row>,
    cols: nat)
  {
    /** The three attribute lists run in step, and the table is rectangular. */
    predicate Valid() {
      |strToEnum| == |attributes| && |enumToStr| == |attributes| && Rectangular(rows, cols)
    }

    /** `size`: number of rows. */
    function Size(): nat { |rows| }

    /** `num_attributes`: width of the table (not the length of the attribute list). */
    function NumAttributes(): nat { cols }

    /** `get(idx)`: the row at a Python index; None where numpy raises IndexError. */
    function Get(idx: int): (r: Option<Row>)
      requires Valid()
      ensures r.Some? <==> -|rows| <= idx < |rows|
      ensures r.Some? ==> |r.value| == cols
      ensures r.Some? ==> r.value == rows[if idx >= 0 then idx else |rows| + idx]
    {
      match PyIndex(idx, |rows|)
      case None => None
      case Some(i) => Some(rows[i])
    }

    /** `get_attribute_column(idx)`: one cell per row, from the column at a Python index. */
    function GetAttributeColumn(idx: int): (r: Option<seq<Cell>>)
      requires Valid()
      ensures r.Some? <==> -(cols as int) <= idx < cols
      ensures r.Some? ==> |r.value| == |rows|
      ensures r.Some? ==> forall k :: 0 <= k < |rows| ==>
                r.value[k] == rows[k][if idx >= 0 then idx else cols + idx]
    {
      match PyIndex(idx, cols)
      case None => None
      case Some(c) => Some(seq(|rows|, k requires 0 <= k < |rows| => rows[k][c]))
    }

    /** `attribute_name(col)`: the declared name at a Python index. */
    function AttributeName(col: int): (r: Option<string>)
      ensures r.Some? <==> -|attributes| <= col < |attributes|
      ensures r.Some? ==> r.value == attributes[if col >= 0 then col else |attributes| + col]
    {
      match PyIndex(col, |attributes|)
      case None => None
      case Some(c) => Some(attributes[c])
    }

    /**
     * `attribute_value(col, val)`: the label that code `val` stands for in the
     * column's code-to-label map; None for IndexError (no such column) or
     * KeyError (no such code).
     */
    function AttributeValue(col: int, val: int): (r: Option<string>)
      ensures r.Some? <==> -|enumToStr| <= col < |enumToStr| && val >= 0 &&
                           val in enumToStr[if col >= 0 then col else |enumToStr| + col]
      ensures r.Some? ==> r.value == enumToStr[if col >= 0 then col else |enumToStr| + col][val]
    {
      match PyIndex(col, |enumToStr|)
      case None => None
      case Some(c) => if val >= 0 && val in enumToStr[c] then Some(enumToStr[c][val]) else None
    }

    /**
     * `is_continuous(col)`: true when there are no attributes at all, otherwise
     * whether the column's code-to-label map is empty; None for IndexError.
     */
    function IsContinuous(col: int): (r: Option<bool>)
      ensures r.Some? <==> |enumToStr| == 0 || -|enumToStr| <= col < |enumToStr|
      ensures r == Some(true) <==>
                |enumToStr| == 0 ||
                (-|enumToStr| <= col < |enumToStr| &&
                 |enumToStr[if col >= 0 then col else |enumToStr| + col]| == 0)
    {
      if |enumToStr| == 0 then Some(true)
      else match PyIndex(col, |enumToStr|)
        case None => None
        case Some(c) => Some(|enumToStr[c]| == 0)
    }

    /**
     * `inputs`: every row without its last cell (`[:, :-1]`), carrying the
     * parent's name and its full attribute and label lists.
     */
    function Inputs(): (t: Table)
      requires Valid()
      ensures t.Valid()
      ensures t.Size() == Size()
      ensures t.cols == if cols == 0 then 0 else cols - 1
      ensures t.name == name && t.attributes == attributes
      ensures t.strToEnum == strToEnum && t.enumToStr == enumToStr
      ensures forall r :: 0 <= r < |rows| ==> t.rows[r] <= rows[r]
    {
      var w := SliceEnd(-1, cols);
      Table(name, attributes, strToEnum, enumToStr,
            seq(|rows|, r requires 0 <= r < |rows| => rows[r][..w]), w)
    }

    /**
     * `targets`: the last column as a one-column table (`[:, -1]` then a new
     * axis), same name and lists; None where numpy raises IndexError (no columns).
     */
    function Targets(): (r: Option<Table>)
      requires Valid()
      ensures r.Some? <==> cols > 0
      ensures r.Some? ==> r.value.Valid() && r.value.Size() == Size() && r.value.cols == 1
      ensures r.Some? ==> r.value.name == name && r.value.attributes == attributes
      ensures r.Some? ==> r.value.strToEnum == strToEnum && r.value.enumToStr == enumToStr
      ensures r.Some? ==> forall k :: 0 <= k < |rows| ==> r.value.rows[k] == [rows[k][cols - 1]]
    {
      if cols == 0 then None
      else Some(Table(name, attributes, strToEnum, enumToStr,
                      seq(|rows|, k requires 0 <= k < |rows| => [rows[k][cols - 1]]), 1))
    }
  }

  /** The inputs and the target of each row put back together give the row. */
  lemma InputsTargetsRecombine(t: Table, k: nat)
    requires t.Valid() && t.cols > 0 && k < t.Size()
    ensures t.Inputs().rows[k] + t.Targets().value.rows[k] == t.rows[k]
  {
    assert t.rows[k] == t.rows[k][..t.cols - 1] + [t.rows[k][t.cols - 1]];
  }
}
