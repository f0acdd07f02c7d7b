/**
 * Matrix33_str, the `__str__` of M33f/M33d: the type name, then the three
 * rows as parenthesised, comma-separated groups, all in one outer pair of
 * parentheses. How a single scalar is written (the stream's `operator<<`)
 * is the parameter `toText`.
 */
module Matrix33Text {
  import opened Matrix33Core

  /** The closed form: Name((a, b, c), (d, e, f), (g, h, i)), entries in
      row-major order, ", " between entries and between rows only. */
  function Matrix33Text(p: Precision, toText: real -> string, v: Matrix33): string
  {
    Matrix33Name(p) + "(" + "(" + toText(v[0][0]) + ", " + toText(v[0][1]) + ", " + toText(v[0][2]) + ")"
      + ", " + "(" + toText(v[1][0]) + ", " + toText(v[1][1]) + ", " + toText(v[1][2]) + ")"
      + ", " + "(" + toText(v[2][0]) + ", " + toText(v[2][1]) + ", " + toText(v[2][2]) + ")" + ")"
  }

  /** What follows entry or row `k` of 3: ", " except after the last. */
  function Separator(k: nat): string
  {
    if k != 2 then ", " else ""
  }

  /** The stream's contents when row `row` is about to be opened. */
  function BeforeRow(p: Precision, toText: real -> string, v: Matrix33, row: nat): string
    requires row <= 3
    decreases row, 0
  {
    if row == 0 then Matrix33Name(p) + "("
    else InRow(p, toText, v, row - 1, 3) + ")" + Separator(row - 1)
  }

  /** The stream's contents once `col` entries of row `row` are written. */
  function InRow(p: Precision, toText: real -> string, v: Matrix33, row: nat, col: nat): string
    requires row < 3 && col <= 3
    decreases row, col + 1
  {
    if col == 0 then BeforeRow(p, toText, v, row) + "("
    else InRow(p, toText, v, row, col - 1) + toText(v[row][col - 1]) + Separator(col - 1)
  }

  /** Once all three rows are written, the stream plus the closing ")" is
      the closed form. */
  lemma StreamComplete(p: Precision, toText: real -> string, v: Matrix33)
    ensures BeforeRow(p, toText, v, 3) + ")" == Matrix33Text(p, toText, v)
  {
  }

  /** Matrix33_str: appends to a stream row by row and column by column, with
      ", " after every column but the last and every row but the last. */
  method Matrix33Str(p: Precision, toText: real -> string, v: Matrix33) returns (s: string)
    ensures s == Matrix33Text(p, toText, v)
  {
    s := Matrix33Name(p) + "(";
    for row := 0 to 3
      invariant s == BeforeRow(p, toText, v, row)
    {
      s := s + "(";
      for col := 0 to 3
        invariant s == InRow(p, toText, v, row, col)
      {
        s := s + toText(v[row][col]);
        s := s + (if col != 2 then ", " else "");
      }
      s := s + ")" + (if row != 2 then ", " else "");
    }
    s := s + ")";
    StreamComplete(p, toText, v);
  }

  /** The identity of M33f prints as M33f((1, 0, 0), (0, 1, 0), (0, 0, 1))
      when the stream writes 1 and 0 as "1" and "0". */
  lemma IdentityText(toText: real -> string)
    requires toText(1.0) == "1" && toText(0.0) == "0"
    ensures Matrix33Text(Float, toText, Identity()) == "M33f((1, 0, 0), (0, 1, 0), (0, 0, 1))"
  {
  }
}
