// Result rows as PHP associative arrays, and Wejv::trimRow, which rewrites
// every row of a result in place: the GROUP_CONCAT columns `genres` and
// `tags` become the lists `genre` and `tag`, the helper keys go, and a
// non-NULL image is base64-encoded.
module Rows {
  import Strings

  /**
   * A column value: NULL, a number, a string, a list of names (what trimRow
   * writes) or the base64 encoding of a byte string (base64_encode is not
   * part of this model; Base64(raw) stands for its result).
   */
  datatype Value = Null | Int(n: int) | Str(s: string) | List(items: seq<string>) | Base64(raw: string)

  type Row = map<string, Value>

  /** $row[key]: a missing key reads as NULL. */
  function Get(row: Row, key: string): Value
  {
    if key in row then row[key] else Null
  }

  /** PHP truthiness of a value. */
  predicate Truthy(v: Value)
  {
    match v
    case Null => false
    case Int(n) => n != 0
    case Str(s) => !Strings.PhpEmpty(s)
    case List(items) => items != []
    case Base64(raw) => raw != []
  }

  /**
   * `$v ? explode(',', $v) : []` on a GROUP_CONCAT column, which holds a
   * string or NULL: a truthy string is split at its commas, anything else
   * gives the empty list. A truthy string is recovered by joining the pieces.
   */
  function Names(v: Value): (names: seq<string>)
    ensures !Truthy(v) ==> names == []
    ensures v.Str? && Truthy(v) ==> |names| >= 1 && Strings.Join(names, ',') == v.s
    ensures forall i :: 0 <= i < |names| ==> ',' !in names[i]
  {
    if v.Str? && Truthy(v) then
      Strings.JoinSplit(v.s, ',');
      Strings.Split(v.s, ',')
    else []
  }

  /** base64_encode on an image column, which holds a byte string. */
  function Encode(v: Value): Value
  {
    if v.Str? then Base64(v.s) else v
  }

  /** trimRow on one row. */
  function TrimRow(row: Row): (r: Row)
    ensures r.Keys == row.Keys - {"genres", "tags", "match_count"} + {"genre", "tag"}
    ensures r["genre"] == List(Names(Get(row, "genres"))) && r["tag"] == List(Names(Get(row, "tags")))
    ensures forall k :: k in row && k !in {"genres", "tags", "match_count", "genre", "tag", "img"} ==> r[k] == row[k]
    ensures "img" in row && row["img"] == Null ==> r["img"] == Null
    ensures "img" in row && row["img"].Str? ==> r["img"] == Base64(row["img"].s)
  {
    var listed := (row - {"genres", "tags", "match_count"})["genre" := List(Names(Get(row, "genres")))]
                                                           ["tag" := List(Names(Get(row, "tags")))];
    if Get(row, "img") != Null then listed["img" := Encode(row["img"])] else listed
  }

  /** The by-reference loop of trimRow: every row of the result is rewritten in place. */
  method TrimRows(rows: array<Row>)
    modifies rows
    ensures forall i :: 0 <= i < rows.Length ==> rows[i] == TrimRow(old(rows[i]))
  {
    var i := 0;
    while i < rows.Length
      invariant 0 <= i <= rows.Length
      invariant forall k :: 0 <= k < i ==> rows[k] == TrimRow(old(rows[k]))
      invariant forall k :: i <= k < rows.Length ==> rows[k] == old(rows[k])
    {
      rows[i] := TrimRow(rows[i]);
      i := i + 1;
    }
  }

  /**
   * A concatenation of one or more comma-free names is PHP-empty exactly when
   * it is a lone "" or a lone "0".
   */
  lemma {:induction false} EmptyConcat(names: seq<string>)
    requires |names| >= 1
    requires forall i :: 0 <= i < |names| ==> ',' !in names[i]
    ensures Strings.PhpEmpty(Strings.Join(names, ',')) <==> names == [""] || names == ["0"]
  {
    if |names| >= 2 {
      Strings.JoinCons(names, ',');
      var j := Strings.Join(names, ',');
      assert j == names[0] + [','] + Strings.Join(names[1..], ',');
      assert j[|names[0]|] == ',';
      assert "0"[0] != ',';
      assert j != "" && j != "0";
    }
  }

  /**
   * Names survive the GROUP_CONCAT / explode round trip: comma-free names,
   * other than a lone "" or a lone "0", come back as they were joined.
   */
  lemma NamesRoundTrip(names: seq<string>)
    requires |names| >= 1
    requires forall i :: 0 <= i < |names| ==> ',' !in names[i]
    requires names != [""] && names != ["0"]
    ensures Names(Str(Strings.Join(names, ','))) == names
  {
    EmptyConcat(names);
    Strings.SplitJoin(names, ',');
  }

  /** A recipe whose only genre (or tag) is named "0" reads back with none. */
  lemma LoneZeroNameLost()
    ensures Names(Str(Strings.Join(["0"], ','))) == []
  {
    EmptyConcat(["0"]);
  }
}
