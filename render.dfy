/**
 `display_planes` as the list of lines it prints: a placeholder line for an
 empty list, otherwise a bordered table with columns No (width 4),
 destination (30), flight number (20) and type (15).
 */
module Render {
  import opened Wrappers
  import opened Format
  import opened Planes

  const EmptyMessage: string := "Список самолетов пуст"

  /** Minimum widths of the four columns. */
  const NoWidth: nat := 4
  const DestinationWidth: nat := 30
  const NumWidth: nat := 20
  const TypWidth: nat := 15

  /** Width of every line of the table whose cells fit their columns. */
  const TableWidth: nat := 82

  /** `'+-{}-+-{}-+-{}-+-{}-+'` filled with runs of dashes as wide as the columns. */
  function Border(): (line: string)
    ensures SeparatorsAt(line, '+')
    ensures forall i :: 0 <= i < |line| ==> line[i] == (if i in {0, 7, 40, 63, 81} then '+' else '-')
  {
    "+-" + Repeat('-', NoWidth) + "-+-" + Repeat('-', DestinationWidth) + "-+-"
    + Repeat('-', NumWidth) + "-+-" + Repeat('-', TypWidth) + "-+"
  }

  /** `line` has the column separator `c` where the border has its `+` signs. */
  predicate SeparatorsAt(line: string, c: char) {
    |line| == TableWidth && line[0] == c && line[7] == c && line[40] == c && line[63] == c && line[81] == c
  }

  /** `line` has the single spaces that frame each separator of a row: `'| '`, `' | '` and `' |'`. */
  predicate SpacedAt(line: string) {
    && |line| == TableWidth
    && line[1] == ' ' && line[6] == ' ' && line[8] == ' ' && line[39] == ' '
    && line[41] == ' ' && line[62] == ' ' && line[64] == ' ' && line[80] == ' '
  }

  /** A row of four cells, each already padded: `'| {} | {} | {} | {} |'`. */
  function Cells(no: string, destination: string, num: string, typ: string): string {
    "| " + no + " | " + destination + " | " + num + " | " + typ + " |"
  }

  /** The header row: the four column titles, centred. */
  function Header(): (line: string)
    ensures SeparatorsAt(line, '|')
    ensures SpacedAt(line)
    ensures line[2..6] == AlignCenter("No", NoWidth)
    ensures line[9..39] == AlignCenter("Пункт назначения", DestinationWidth)
    ensures line[42..62] == AlignCenter("Номер рейса", NumWidth)
    ensures line[65..80] == AlignCenter("Тип самолета", TypWidth)
  {
    var no := AlignCenter("No", NoWidth);
    var destination := AlignCenter("Пункт назначения", DestinationWidth);
    var num := AlignCenter("Номер рейса", NumWidth);
    var typ := AlignCenter("Тип самолета", TypWidth);
    CellsLayout(no, destination, num, typ);
    Cells(no, destination, num, typ)
  }

  /** `plane.get('destination', '')`. */
  function DestinationText(p: Plane): string {
    p.destination.GetOr("")
  }

  /** `plane.get('num', '')` as `format` prints it. */
  function NumText(p: Plane): string {
    match p.num
    case Some(n) => IntToString(n)
    case None => ""
  }

  /** Row `idx` (counted from 1): the index right-aligned, destination and number left-aligned, type right-aligned. */
  function Row(idx: nat, p: Plane): string {
    Cells(AlignRight(NatToString(idx), NoWidth), AlignLeft(DestinationText(p), DestinationWidth),
          AlignLeft(NumText(p), NumWidth), AlignRight(TypOf(p), TypWidth))
  }

  /** Every value of the row fits its column, so nothing widens the row. */
  predicate FitsColumns(idx: nat, p: Plane) {
    |NatToString(idx)| <= NoWidth && FieldsFit(p)
  }

  /** The destination, number and type of `p` fit their columns. */
  predicate FieldsFit(p: Plane) {
    && |DestinationText(p)| <= DestinationWidth
    && |NumText(p)| <= NumWidth
    && |TypOf(p)| <= TypWidth
  }

  /** Four cells padded to the column widths line up under the border. */
  lemma CellsLayout(no: string, destination: string, num: string, typ: string)
    requires |no| == NoWidth && |destination| == DestinationWidth
    requires |num| == NumWidth && |typ| == TypWidth
    ensures var row := Cells(no, destination, num, typ);
      && SeparatorsAt(row, '|')
      && SpacedAt(row)
      && row[2..6] == no && row[9..39] == destination && row[42..62] == num && row[65..80] == typ
  {
  }

  /**
   A row whose values fit is exactly as wide as the border, its separators sit
   under the border's `+` signs, and each cell holds its value padded to the
   column width (the alignment functions say where the value stands whole).
   */
  lemma RowLayout(idx: nat, p: Plane)
    requires FitsColumns(idx, p)
    ensures var row := Row(idx, p);
      && SeparatorsAt(row, '|')
      && SpacedAt(row)
      && row[2..6] == AlignRight(NatToString(idx), NoWidth)
      && row[9..39] == AlignLeft(DestinationText(p), DestinationWidth)
      && row[42..62] == AlignLeft(NumText(p), NumWidth)
      && row[65..80] == AlignRight(TypOf(p), TypWidth)
  {
  }

  /** Indices 1 to 9999 always fit the No column. */
  lemma IndexFits(idx: nat)
    requires idx < 10000
    ensures |NatToString(idx)| <= NoWidth
  {
    assert Pow10(4) == 10000;
    NatToStringLength(idx, 4);
  }

  /** Row number `idx` of a record whose fields fit has the border's separators. */
  lemma RowAligned(idx: nat, p: Plane)
    requires 0 < idx < 10000 && FieldsFit(p)
    ensures SeparatorsAt(Row(idx, p), '|')
  {
    IndexFits(idx);
    RowLayout(idx, p);
  }

  /** The body of the table for `staff`: a row and then `border` per record, in order. */
  function Rows(staff: seq<Plane>, border: string): seq<string> {
    if staff == [] then []
    else Rows(staff[..|staff| - 1], border) + [Row(|staff|, staff[|staff| - 1]), border]
  }

  /** Taking one more record of `staff` adds its row and a border at the end of the body. */
  lemma RowsPrefixStep(staff: seq<Plane>, idx: nat, border: string)
    requires idx < |staff|
    ensures Rows(staff[..idx + 1], border) == Rows(staff[..idx], border) + [Row(idx + 1, staff[idx]), border]
  {
    assert staff[..idx + 1][..idx] == staff[..idx];
  }

  /** The loop step of `PrintRows`: printing the next row and a border extends the output by one record. */
  lemma PrintStep(printed: seq<string>, staff: seq<Plane>, idx: nat, line: string, lines: seq<string>)
    requires idx < |staff|
    requires lines == printed + Rows(staff[..idx], line)
    ensures lines + [Row(idx + 1, staff[idx]), line] == printed + Rows(staff[..idx + 1], line)
  {
    RowsPrefixStep(staff, idx, line);
  }

  lemma {:induction false} RowsShape(staff: seq<Plane>, border: string)
    ensures |Rows(staff, border)| == 2 * |staff|
    ensures forall k :: 0 <= k < |staff| ==>
      Rows(staff, border)[2 * k] == Row(k + 1, staff[k]) && Rows(staff, border)[2 * k + 1] == border
  {
    if staff != [] {
      var init := staff[..|staff| - 1];
      RowsShape(init, border);
      forall k | 0 <= k < |staff|
        ensures Rows(staff, border)[2 * k] == Row(k + 1, staff[k]) && Rows(staff, border)[2 * k + 1] == border
      {
        var r := Rows(staff, border);
        assert r == Rows(init, border) + [Row(|staff|, staff[|staff| - 1]), border];
        if k < |init| {
          assert init[k] == staff[k];
          assert r[2 * k] == Rows(init, border)[2 * k];
          assert r[2 * k + 1] == Rows(init, border)[2 * k + 1];
        } else {
          assert k == |init|;
        }
      }
    }
  }

  /**
   The lines printed for `staff` when the border line is `border` and the
   header line is `header`.
   */
  function Framed(staff: seq<Plane>, border: string, header: string): seq<string> {
    if staff == [] then [EmptyMessage]
    else [border, header, border] + Rows(staff, border)
  }

  /** Everything `display_planes(staff)` prints, one string per line. */
  function Table(staff: seq<Plane>): seq<string> {
    Framed(staff, Border(), Header())
  }

  lemma FramedShape(staff: seq<Plane>, border: string, header: string)
    ensures staff == [] ==> Framed(staff, border, header) == [EmptyMessage]
    ensures staff != [] ==>
      && |Framed(staff, border, header)| == 3 + 2 * |staff|
      && Framed(staff, border, header)[..3] == [border, header, border]
      && forall k :: 0 <= k < |staff| ==>
           && Framed(staff, border, header)[3 + 2 * k] == Row(k + 1, staff[k])
           && Framed(staff, border, header)[4 + 2 * k] == border
  {
    if staff != [] {
      RowsShape(staff, border);
      var r := Rows(staff, border);
      var t := Framed(staff, border, header);
      assert t == [border, header, border] + r;
      assert forall j :: 0 <= j < |r| ==> t[3 + j] == r[j];
    }
  }

  /**
   The empty list prints only the placeholder, with no border or header; a
   list of n records prints 3 + 2n lines: border, header, border, then for
   record k (numbered from 1) its row followed by a border.
   */
  lemma TableShape(staff: seq<Plane>)
    ensures staff == [] ==> Table(staff) == [EmptyMessage]
    ensures staff != [] ==>
      && |Table(staff)| == 3 + 2 * |staff|
      && Table(staff)[..3] == [Border(), Header(), Border()]
      && forall k :: 0 <= k < |staff| ==>
           Table(staff)[3 + 2 * k] == Row(k + 1, staff[k]) && Table(staff)[4 + 2 * k] == Border()
  {
    FramedShape(staff, Border(), Header());
  }

  /**
   The same for any border and header lines that have their separators in
   the border's columns.
   */
  lemma FramedAligned(staff: seq<Plane>, border: string, header: string)
    requires staff != [] && |staff| < 10000
    requires forall k :: 0 <= k < |staff| ==> FieldsFit(staff[k])
    requires SeparatorsAt(border, '+') && SeparatorsAt(header, '|')
    ensures forall i :: 0 <= i < |Framed(staff, border, header)| ==>
      SeparatorsAt(Framed(staff, border, header)[i], '+') || SeparatorsAt(Framed(staff, border, header)[i], '|')
  {
    FramedShape(staff, border, header);
    var t := Framed(staff, border, header);
    forall i | 0 <= i < |t|
      ensures SeparatorsAt(t[i], '+') || SeparatorsAt(t[i], '|')
    {
      if i < 3 {
        assert t[i] == [border, header, border][i];
      } else {
        var k := (i - 3) / 2;
        if i == 3 + 2 * k {
          RowAligned(k + 1, staff[k]);
        } else {
          assert i == 4 + 2 * k;
        }
      }
    }
  }

  /**
   When the list has fewer than 10000 records (so every row number fits its
   column) and every record's fields fit theirs, every line of the table is
   as wide as the border and has its separators under the border's `+` signs.
   */
  lemma TableAligned(staff: seq<Plane>)
    requires staff != [] && |staff| < 10000
    requires forall k :: 0 <= k < |staff| ==> FieldsFit(staff[k])
    ensures forall i :: 0 <= i < |Table(staff)| ==> |Table(staff)[i]| == TableWidth
    ensures forall i :: 0 <= i < |Table(staff)| ==>
      SeparatorsAt(Table(staff)[i], '+') || SeparatorsAt(Table(staff)[i], '|')
  {
    FramedAligned(staff, Border(), Header());
  }

  /**
   The `for idx, plane in enumerate(staff, 1)` loop of `display_planes`: after
   the lines already printed, a row and the border line for each record.
   */
  method PrintRows(printed: seq<string>, staff: seq<Plane>, line: string) returns (lines: seq<string>)
    ensures lines == printed + Rows(staff, line)
  {
    lines := printed;
    var idx := 0;
    while idx < |staff|
      invariant 0 <= idx <= |staff|
      invariant lines == printed + Rows(staff[..idx], line)
    {
      PrintStep(printed, staff, idx, line, lines);
      lines := lines + [Row(idx + 1, staff[idx]), line];
      idx := idx + 1;
    }
    assert staff[..idx] == staff;
  }

  /** `display_planes`: the lines it prints, in the order it prints them. */
  method DisplayPlanes(staff: seq<Plane>) returns (lines: seq<string>)
    ensures lines == Table(staff)
  {
    if staff != [] {
      var line := Border();
      lines := [line, Header(), line];
      lines := PrintRows(lines, staff, line);
    } else {
      lines := [EmptyMessage];
    }
  }
}
