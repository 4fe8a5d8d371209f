/**
 * The server's purchase-order reports (server/routes/reports.js): the query
 * `getOrders` builds for an optional date range, the decoding of the stored
 * `items` column, the row of the order export, and the per-item projection
 * that picks an item's line out of an order.
 */
module Reports {
  import opened Common
  import opened Text

  // ---------------------------------------------------------------------------
  // Rows and their decoding

  /** One element of a stored `items` array, after parsing; a missing property is `None`. */
  datatype Line = Line(itemName: Option<string>, quantity: Option<int>, price: Option<int>, supplier: Option<string>)

  /** A `purchaseOrders` row as the database returns it; every column may be NULL. */
  datatype OrderRow = OrderRow(
    id: int,
    itemName: Option<string>,
    quantity: Option<int>,
    supplier: Option<string>,
    price: Option<int>,
    notes: Option<string>,
    orderDate: Option<string>,
    items: Option<string>)

  /** A row after `getOrders` decoded it: the same columns, `items` parsed or null. */
  datatype ReportOrder = ReportOrder(
    id: int,
    itemName: Option<string>,
    quantity: Option<int>,
    supplier: Option<string>,
    price: Option<int>,
    notes: Option<string>,
    orderDate: Option<string>,
    items: Option<seq<Line>>)

  /** A row with its `items` column parsed when it is non-empty and `null` otherwise; the JSON parser is passed in. */
  function DecodeRow(r: OrderRow, parse: string -> seq<Line>): (d: ReportOrder)
    ensures d.items.None? <==> r.items.None? || r.items.value == ""
    ensures d.items.Some? ==> d.items.value == parse(r.items.value)
    ensures d.id == r.id && d.itemName == r.itemName && d.quantity == r.quantity
    ensures d.supplier == r.supplier && d.price == r.price && d.notes == r.notes && d.orderDate == r.orderDate
  {
    ReportOrder(r.id, r.itemName, r.quantity, r.supplier, r.price, r.notes, r.orderDate,
      if r.items.Some? && r.items.value != "" then Some(parse(r.items.value)) else None)
  }

  /** Every row decoded, in the order the query returned them. */
  function DecodeRows(rows: seq<OrderRow>, parse: string -> seq<Line>): (ds: seq<ReportOrder>)
    ensures |ds| == |rows|
    ensures forall i :: 0 <= i < |rows| ==> ds[i] == DecodeRow(rows[i], parse)
  {
    seq(|rows|, i requires 0 <= i < |rows| => DecodeRow(rows[i], parse))
  }

  // ---------------------------------------------------------------------------
  // The order export row

  /** A spreadsheet cell: empty (`null` / `undefined`), text, or a number. */
  datatype Cell = Blank | Str(s: string) | Num(n: int)

  function StringCell(x: Option<string>): Cell {
    if x.Some? then Str(x.value) else Blank
  }

  function NumberCell(x: Option<int>): Cell {
    if x.Some? then Num(x.value) else Blank
  }

  /** `parts.join(sep)`. */
  function Join(parts: seq<string>, sep: string): (s: string)
    ensures |parts| == 1 ==> s == parts[0]
  {
    if parts == [] then ""
    else if |parts| == 1 then parts[0]
    else parts[0] + sep + Join(parts[1..], sep)
  }

  /** How `join` writes an element: `null` and `undefined` become the empty string. */
  function NameText(x: Option<string>): string {
    x.GetOr("")
  }

  function NumberText(x: Option<int>): (s: string)
    ensures ',' !in s
  {
    if x.None? then ""
    else
      IntToStringChars(x.value);
      IntToString(x.value)
  }

  function Names(lines: seq<Line>): (r: seq<string>)
    ensures |r| == |lines| && forall i :: 0 <= i < |lines| ==> r[i] == NameText(lines[i].itemName)
  {
    seq(|lines|, i requires 0 <= i < |lines| => NameText(lines[i].itemName))
  }

  function Quantities(lines: seq<Line>): (r: seq<string>)
    ensures |r| == |lines| && forall i :: 0 <= i < |lines| ==> r[i] == NumberText(lines[i].quantity)
  {
    seq(|lines|, i requires 0 <= i < |lines| => NumberText(lines[i].quantity))
  }

  /** A row of the orders spreadsheet. */
  datatype ExportRow = ExportRow(date: Cell, supplier: Cell, items: Cell, quantity: Cell, total: Cell)

  /**
   * The export row of an order: with line items, their names and their
   * quantities each joined by `", "`; without, the order-level `itemName` and
   * `quantity`.
   */
  function ExportRowOf(r: ReportOrder): (e: ExportRow)
    ensures e.date == StringCell(r.orderDate) && e.supplier == StringCell(r.supplier) && e.total == NumberCell(r.price)
    ensures r.items.Some? ==> e.items == Str(Join(Names(r.items.value), ", "))
    ensures r.items.Some? ==> e.quantity == Str(Join(Quantities(r.items.value), ", "))
    ensures r.items.None? ==> e.items == StringCell(r.itemName) && e.quantity == NumberCell(r.quantity)
  {
    ExportRow(
      StringCell(r.orderDate),
      StringCell(r.supplier),
      if r.items.Some? then Str(Join(Names(r.items.value), ", ")) else StringCell(r.itemName),
      if r.items.Some? then Str(Join(Quantities(r.items.value), ", ")) else NumberCell(r.quantity),
      NumberCell(r.price))
  }

  /** `s.split(c)`. */
  function Split(s: string, c: char): (r: seq<string>)
    ensures |r| >= 1
  {
    if s == [] then [""]
    else
      var rest := Split(s[1..], c);
      if s[0] == c then [""] + rest else [[s[0]] + rest[0]] + rest[1..]
  }

  /** Drops the one blank that `", "` leaves in front of every part after the first. */
  function Unpad(p: string): string {
    if |p| > 0 && p[0] == ' ' then p[1..] else p
  }

  /** Reads a `", "`-joined cell back into its parts: split at commas, then unpad. */
  function Unjoin(s: string): (r: seq<string>)
    ensures |r| >= 1
  {
    var ps := Split(s, ',');
    [ps[0]] + seq(|ps| - 1, i requires 0 <= i < |ps| - 1 => Unpad(ps[i + 1]))
  }

  lemma {:induction false} SplitNoSeparator(x: string, c: char)
    requires c !in x
    ensures Split(x, c) == [x]
  {
    if x != [] {
      SplitNoSeparator(x[1..], c);
      assert [x[0]] + x[1..] == x;
    }
  }

  lemma {:induction false} SplitAfter(x: string, c: char, rest: string)
    requires c !in x
    ensures Split(x + [c] + rest, c) == [x] + Split(rest, c)
  {
    if x != [] {
      SplitAfter(x[1..], c, rest);
      assert (x + [c] + rest)[1..] == x[1..] + [c] + rest;
      assert [x[0]] + x[1..] == x;
    }
  }

  /** Splitting a `", "`-joined list at commas gives the first part, then each further part behind one blank. */
  lemma {:induction false} SplitJoin(parts: seq<string>)
    requires |parts| >= 1
    requires forall i :: 0 <= i < |parts| ==> ',' !in parts[i]
    ensures |Split(Join(parts, ", "), ',')| == |parts|
    ensures Split(Join(parts, ", "), ',')[0] == parts[0]
    ensures forall i :: 0 < i < |parts| ==> Split(Join(parts, ", "), ',')[i] == " " + parts[i]
  {
    if |parts| == 1 {
      SplitNoSeparator(parts[0], ',');
    } else {
      var tail := parts[1..];
      var t := Join(tail, ", ");
      SplitJoin(tail);
      var r := Split(t, ',');
      assert Join(parts, ", ") == parts[0] + [','] + ([' '] + t);
      SplitAfter(parts[0], ',', [' '] + t);
      assert ([' '] + t)[1..] == t;
      var ps := Split(Join(parts, ", "), ',');
      assert ps == [parts[0]] + ([[' '] + r[0]] + r[1..]);
      forall i | 0 < i < |parts| ensures ps[i] == " " + parts[i] {
        if i > 1 { assert ps[i] == r[i - 1] && tail[i - 1] == parts[i]; }
      }
    }
  }

  /** A `", "`-joined list of comma-free parts reads back as the same parts. */
  lemma JoinRoundTrip(parts: seq<string>)
    requires |parts| >= 1
    requires forall i :: 0 <= i < |parts| ==> ',' !in parts[i]
    ensures Unjoin(Join(parts, ", ")) == parts
  {
    SplitJoin(parts);
    var ps := Split(Join(parts, ", "), ',');
    var u := Unjoin(Join(parts, ", "));
    forall i | 0 < i < |parts| ensures u[i] == parts[i] {
      assert u[i] == Unpad(ps[i]);
      assert (" " + parts[i])[1..] == parts[i];
    }
  }

  /** The Items cell of an order with line items lists their names, in order, when no name holds a comma. */
  lemma ExportItemsListed(r: ReportOrder)
    requires r.items.Some? && |r.items.value| >= 1
    requires forall i :: 0 <= i < |r.items.value| ==> ',' !in NameText(r.items.value[i].itemName)
    ensures ExportRowOf(r).items.Str?
    ensures Unjoin(ExportRowOf(r).items.s) == Names(r.items.value)
  {
    JoinRoundTrip(Names(r.items.value));
  }

  /** The Quantity cell of an order with line items lists each line's quantity, in order; a non-negative one reads back as itself. */
  lemma ExportQuantitiesListed(r: ReportOrder, i: nat)
    requires r.items.Some? && i < |r.items.value|
    ensures ExportRowOf(r).quantity.Str?
    ensures |Unjoin(ExportRowOf(r).quantity.s)| == |r.items.value|
    ensures Unjoin(ExportRowOf(r).quantity.s)[i] == NumberText(r.items.value[i].quantity)
    ensures r.items.value[i].quantity.Some? && r.items.value[i].quantity.value >= 0 ==>
      AllDigits(Unjoin(ExportRowOf(r).quantity.s)[i]) &&
      ParseDigits(Unjoin(ExportRowOf(r).quantity.s)[i]) == r.items.value[i].quantity.value
  {
    var qs := Quantities(r.items.value);
    JoinRoundTrip(qs);
    var q := r.items.value[i].quantity;
    if q.Some? && q.value >= 0 {
      ParseNatToString(q.value);
    }
  }

  // ---------------------------------------------------------------------------
  // The per-item report

  /** The position of the first line whose item name is exactly `name`, as `find` looks it up. */
  function FindByName(lines: seq<Line>, name: string): (r: Option<nat>)
    ensures r.Some? ==> r.value < |lines| && lines[r.value].itemName == Some(name)
    ensures r.Some? ==> forall j :: 0 <= j < r.value ==> lines[j].itemName != Some(name)
    ensures r.None? ==> forall j :: 0 <= j < |lines| ==> lines[j].itemName != Some(name)
  {
    if lines == [] then None
    else if lines[0].itemName == Some(name) then Some(0)
    else
      match FindByName(lines[1..], name)
      case None => None
      case Some(k) => Some(k + 1)
  }

  /** A row of the per-item report. */
  datatype ItemReportRow = ItemReportRow(date: Option<string>, supplier: Option<string>, price: Option<int>, quantity: Option<int>)

  /**
   * The per-item projection of an order for the item called `name`: with line
   * items, the price, quantity and supplier of the first line for `name`, all
   * undefined when there is none; without, the order-level fields.
   */
  function ItemRowOf(r: ReportOrder, name: string): (v: ItemReportRow)
    ensures v.date == r.orderDate
    ensures r.items.None? ==> v.supplier == r.supplier && v.price == r.price && v.quantity == r.quantity
    ensures r.items.Some? && FindByName(r.items.value, name).Some? ==>
      var l := r.items.value[FindByName(r.items.value, name).value];
      v.supplier == l.supplier && v.price == l.price && v.quantity == l.quantity
    ensures r.items.Some? && FindByName(r.items.value, name).None? ==>
      v.supplier.None? && v.price.None? && v.quantity.None?
  {
    if r.items.None? then ItemReportRow(r.orderDate, r.supplier, r.price, r.quantity)
    else
      match FindByName(r.items.value, name)
      case Some(k) =>
        var l := r.items.value[k];
        ItemReportRow(r.orderDate, l.supplier, l.price, l.quantity)
      case None => ItemReportRow(r.orderDate, None, None, None)
  }

  /** The line the per-item report reads is the first one for the item, whatever follows it. */
  lemma ItemRowFromFirstLine(r: ReportOrder, name: string, i: nat)
    requires r.items.Some? && i < |r.items.value| && r.items.value[i].itemName == Some(name)
    requires forall j :: 0 <= j < i ==> r.items.value[j].itemName != Some(name)
    ensures ItemRowOf(r, name) == ItemReportRow(r.orderDate, r.items.value[i].supplier, r.items.value[i].price, r.items.value[i].quantity)
  {
  }

  /** Lines appended after the item's first line do not change what the report reads. */
  lemma {:induction false} FindIgnoresLaterLines(lines: seq<Line>, more: seq<Line>, name: string)
    requires FindByName(lines, name).Some?
    ensures FindByName(lines + more, name) == FindByName(lines, name)
  {
    if lines[0].itemName != Some(name) {
      assert (lines + more)[1..] == lines[1..] + more;
      FindIgnoresLaterLines(lines[1..], more, name);
    }
  }
}
