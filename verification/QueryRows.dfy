/**
 * Result rows as text. What comes back from writing rows and reading them is given for all rows:
 * the rows, a slightly different value in two corner cases, or a refusal.
 */
module QueryRows {
  import opened Basics
  import opened Model
  import opened Codec
  import opened RowText
  import opened RowCodec

  // ----- Query values -----

  function Hexes(texts: seq<Text>): (r: seq<bytes>)
    ensures |r| == |texts|
  {
    seq(|texts|, i requires 0 <= i < |texts| => Hex(texts[i]))
  }

  function EncLabels(labels: seq<Text>): bytes {
    Join(Hexes(labels), COMMA)
  }

  function QLetter(q: QueryValue): byte {
    match q
    case Scalar(_) => 0x56
    case QNode(_) => 0x4E
    case QBoundary(_) => 0x42
    case QRel(_) => 0x52
  }

  /** The fields behind the kind letter. */
  function Fields(q: QueryValue): (r: seq<bytes>)
    ensures r != []
  {
    match q
    case Scalar(v) => [EncVal(v)]
    case QNode(n) => [Dec(n.id), EncLabels(n.labels), EncPropsText(n.properties)]
    case QBoundary(b) =>
      [Dec(b.id), Dec(b.ownerShard), Dec(b.version), EncLabels(b.labels), EncPropsText(b.properties)]
    case QRel(r) => [Dec(r.id), Dec(r.from), Dec(r.to), Hex(r.relType), EncPropsText(r.properties)]
  }

  function EncQ(q: QueryValue): bytes {
    [QLetter(q)] + ([COLON] + Join(Fields(q), COLON))
  }

  function DecTexts(parts: seq<bytes>, got: seq<Text>): Option<seq<Text>>
    decreases |parts|
  {
    if parts == [] then Some(got)
    else
      var t := DecText(parts[0]);
      if t.None? then None else DecTexts(parts[1..], got + [t.value])
  }

  function DecLabels(s: bytes): Option<seq<Text>> {
    if s == [] then Some([]) else DecTexts(Split(s, COMMA), [])
  }

  /** At most n pieces; the last one keeps its separators. */
  function SplitN(s: bytes, n: nat, c: byte): (r: seq<bytes>)
    requires n > 0
    ensures r != []
    decreases n
  {
    if n == 1 then [s]
    else
      match SplitOnce(s, c)
      case None => [s]
      case Some((a, b)) => [a] + SplitN(b, n - 1, c)
  }

  function DecNode(parts: seq<bytes>): Option<QueryValue> {
    if |parts| != 3 then None
    else
      var id := ParseU64Text(parts[0]);
      var labels := DecLabels(parts[1]);
      var m := DecProps(parts[2]);
      if id.Some? && labels.Some? && m.Some? then Some(QNode(Node(id.value, labels.value, m.value))) else None
  }

  function DecBoundary(parts: seq<bytes>): Option<QueryValue> {
    if |parts| != 5 then None
    else
      var id := ParseU64Text(parts[0]);
      var owner := ParseU64Text(parts[1]);
      var version := ParseU64Text(parts[2]);
      var labels := DecLabels(parts[3]);
      var m := DecProps(parts[4]);
      if id.Some? && owner.Some? && version.Some? && labels.Some? && m.Some?
      then Some(QBoundary(BoundaryNode(id.value, owner.value, labels.value, m.value, version.value)))
      else None
  }

  function DecRel(parts: seq<bytes>): Option<QueryValue> {
    if |parts| != 5 then None
    else
      var id := ParseU64Text(parts[0]);
      var from := ParseU64Text(parts[1]);
      var to := ParseU64Text(parts[2]);
      var relType := DecText(parts[3]);
      var m := DecProps(parts[4]);
      if id.Some? && from.Some? && to.Some? && relType.Some? && m.Some?
      then Some(QRel(Relationship(id.value, from.value, to.value, relType.value, m.value)))
      else None
  }

  function DecQ(s: bytes): Option<QueryValue> {
    match SplitOnce(s, COLON)
    case None => None
    case Some((kind, payload)) =>
      if kind == [0x56] then
        var v := DecVal(payload);
        if v.Some? then Some(Scalar(v.value)) else None
      else if kind == [0x4E] then DecNode(SplitN(payload, 3, COLON))
      else if kind == [0x42] then DecBoundary(SplitN(payload, 5, COLON))
      else if kind == [0x52] then DecRel(SplitN(payload, 5, COLON))
      else None
  }

  // ----- Rows -----

  function Cell(name: Text, q: QueryValue): bytes {
    Hex(name) + ([EQ] + EncQ(q))
  }

  function Cells(row: QueryRow, names: seq<Text>): (r: seq<bytes>)
    requires forall k :: k in names ==> k in row
    ensures |r| == |names|
  {
    if names == [] then [] else [Cell(names[0], row[names[0]])] + Cells(row, names[1..])
  }

  function EncRow(row: QueryRow): bytes {
    SortedKeysElements(row.Keys);
    Join(Cells(row, SortedKeys(row.Keys)), SEMI)
  }

  function DecCell(s: bytes): Option<(Text, QueryValue)> {
    match SplitOnce(s, EQ)
    case None => None
    case Some((name, value)) =>
      var k := DecText(name);
      var q := DecQ(value);
      if k.Some? && q.Some? then Some((k.value, q.value)) else None
  }

  function DecCells(parts: seq<bytes>, got: QueryRow): Option<QueryRow>
    decreases |parts|
  {
    if parts == [] then Some(got)
    else
      var cell := DecCell(parts[0]);
      if cell.None? then None else DecCells(parts[1..], got[cell.value.0 := cell.value.1])
  }

  function DecRow(s: bytes): Option<QueryRow> {
    if s == [] then Some(map[]) else DecCells(Split(s, SEMI), map[])
  }

  function RowTexts(rows: seq<QueryRow>): (r: seq<bytes>)
    ensures |r| == |rows|
  {
    seq(|rows|, i requires 0 <= i < |rows| => EncRow(rows[i]))
  }

  function EncRows(rows: seq<QueryRow>): bytes {
    Join(RowTexts(rows), BAR)
  }

  function DecRowList(parts: seq<bytes>, got: seq<QueryRow>): Option<seq<QueryRow>>
    decreases |parts|
  {
    if parts == [] then Some(got)
    else
      var row := DecRow(parts[0]);
      if row.None? then None else DecRowList(parts[1..], got + [row.value])
  }

  function DecRows(s: bytes): Option<seq<QueryRow>> {
    if s == [] then Some([]) else DecRowList(Split(s, BAR), [])
  }

  // ----- What comes back -----

  predicate ValidLabels(labels: seq<Text>) {
    forall i :: 0 <= i < |labels| ==> ValidUtf8(labels[i])
  }

  predicate ValidQ(q: QueryValue) {
    match q
    case Scalar(v) => ValidVal(v)
    case QNode(n) => ValidLabels(n.labels) && ValidProps(n.properties)
    case QBoundary(b) => ValidLabels(b.labels) && ValidProps(b.properties)
    case QRel(r) => ValidUtf8(r.relType) && ValidProps(r.properties)
  }

  predicate ValidRow(row: QueryRow) {
    forall k :: k in row ==> ValidUtf8(k) && ValidQ(row[k])
  }

  /** No vector of two or more numbers among the properties. */
  predicate SafeQ(q: QueryValue) {
    match q
    case Scalar(v) => SafeTop(v)
    case QNode(n) => SafeProps(n.properties)
    case QBoundary(b) => SafeProps(b.properties)
    case QRel(r) => SafeProps(r.properties)
  }

  predicate SafeRow(row: QueryRow) {
    forall k :: k in row ==> SafeQ(row[k])
  }

  /** A list of one empty label is written as no text at all. */
  function TidyLabels(labels: seq<Text>): seq<Text> {
    if labels == [[]] then [] else labels
  }

  function Tidy(q: QueryValue): QueryValue {
    match q
    case QNode(n) => QNode(n.(labels := TidyLabels(n.labels)))
    case QBoundary(b) => QBoundary(b.(labels := TidyLabels(b.labels)))
    case _ => q
  }

  function TidyRow(row: QueryRow): QueryRow {
    map k | k in row :: Tidy(row[k])
  }

  function TidyRows(rows: seq<QueryRow>): (r: seq<QueryRow>)
    ensures |r| == |rows|
  {
    seq(|rows|, i requires 0 <= i < |rows| => TidyRow(rows[i]))
  }

  // ----- Proofs -----

  lemma {:induction false} TextsBack(labels: seq<Text>, i: nat, got: seq<Text>)
    requires ValidLabels(labels) && i <= |labels| && got == labels[..i]
    ensures DecTexts(Hexes(labels)[i..], got) == Some(labels)
    decreases |labels| - i
  {
    hide Hex, DecText, ValidUtf8;
    var rest := Hexes(labels)[i..];
    if i == |labels| {
      assert got == labels && rest == [];
    } else {
      TextBack(labels[i]);
      assert rest[0] == Hex(labels[i]) && rest[1..] == Hexes(labels)[i + 1..];
      assert labels[..i + 1] == labels[..i] + [labels[i]];
      TextsBack(labels, i + 1, got + [labels[i]]);
    }
  }

  lemma HexEmpty(s: bytes)
    ensures Hex(s) == [] <==> s == []
  {
  }

  lemma LabelsBack(labels: seq<Text>)
    requires ValidLabels(labels)
    ensures DecLabels(EncLabels(labels)) == Some(TidyLabels(labels))
    ensures COLON !in EncLabels(labels) && Plain(EncLabels(labels))
  {
    hide Hex, DecTexts, ValidUtf8, Plain, Split, Join, ValidLabels;
    var parts := Hexes(labels);
    forall p | p in parts
      ensures COMMA !in p && COLON !in p && Plain(p)
    {
      var i :| 0 <= i < |parts| && parts[i] == p;
      PlainHex(labels[i]);
    }
    JoinAvoids(parts, COMMA, COLON);
    PlainJoin(parts, COMMA);
    JoinEmpty(parts, COMMA);
    if |labels| == 1 {
      HexEmpty(labels[0]);
      assert parts == [Hex(labels[0])] && labels == [labels[0]];
    }
    if Join(parts, COMMA) != [] {
      SplitJoin(parts, COMMA);
      TextsBack(labels, 0, []);
      assert parts[0..] == parts;
    }
  }

  lemma {:induction false} FieldsSplit(parts: seq<bytes>, c: byte)
    requires parts != [] && forall i :: 0 <= i < |parts| - 1 ==> c !in parts[i]
    ensures SplitN(Join(parts, c), |parts|, c) == parts
    decreases |parts|
  {
    if |parts| == 1 {
      assert parts == [parts[0]];
    } else {
      SplitOnceAt(parts[0], Join(parts[1..], c), c);
      FieldsSplit(parts[1..], c);
      assert parts == [parts[0]] + parts[1..];
    }
  }

  lemma QSplit(q: QueryValue)
    ensures SplitOnce(EncQ(q), COLON) == Some(([QLetter(q)], Join(Fields(q), COLON)))
  {
    hide Fields, Join;
    SplitOnceAt([QLetter(q)], Join(Fields(q), COLON), COLON);
  }

  lemma NodeBack(n: Node)
    requires ValidQ(QNode(n))
    ensures DecQ(EncQ(QNode(n))) == if SafeQ(QNode(n)) then Some(Tidy(QNode(n))) else None
  {
    hide EncQ, EncLabels, EncPropsText, Dec, DecLabels, DecProps, Join, SafeProps, TidyLabels, ParseNat, SplitN;
    var q := QNode(n);
    QSplit(q);
    LabelsBack(n.labels);
    PropertiesExactly(n.properties);
    PlainDec(n.id);
    DecRoundTrip(n.id, 0x1_0000_0000_0000_0000);
    FieldsSplit(Fields(q), COLON);
  }

  lemma BoundaryBack(b: BoundaryNode)
    requires ValidQ(QBoundary(b))
    ensures DecQ(EncQ(QBoundary(b))) == if SafeQ(QBoundary(b)) then Some(Tidy(QBoundary(b))) else None
  {
    hide EncQ, EncLabels, EncPropsText, Dec, DecLabels, DecProps, Join, SafeProps, TidyLabels, ParseNat, SplitN;
    var q := QBoundary(b);
    QSplit(q);
    LabelsBack(b.labels);
    PropertiesExactly(b.properties);
    PlainDec(b.id);
    PlainDec(b.ownerShard);
    PlainDec(b.version);
    DecRoundTrip(b.id, 0x1_0000_0000_0000_0000);
    DecRoundTrip(b.ownerShard, 0x1_0000_0000_0000_0000);
    DecRoundTrip(b.version, 0x1_0000_0000_0000_0000);
    FieldsSplit(Fields(q), COLON);
  }

  lemma RelBack(r: Relationship)
    requires ValidQ(QRel(r))
    ensures DecQ(EncQ(QRel(r))) == if SafeQ(QRel(r)) then Some(Tidy(QRel(r))) else None
  {
    hide EncQ, Hex, EncPropsText, Dec, DecText, DecProps, Join, SafeProps, ParseNat, SplitN, ValidUtf8;
    var q := QRel(r);
    QSplit(q);
    PlainHex(r.relType);
    TextBack(r.relType);
    PropertiesExactly(r.properties);
    PlainDec(r.id);
    PlainDec(r.from);
    PlainDec(r.to);
    DecRoundTrip(r.id, 0x1_0000_0000_0000_0000);
    DecRoundTrip(r.from, 0x1_0000_0000_0000_0000);
    DecRoundTrip(r.to, 0x1_0000_0000_0000_0000);
    FieldsSplit(Fields(q), COLON);
  }

  /** A query value written and read back. */
  lemma QueryValueBack(q: QueryValue)
    requires ValidQ(q)
    ensures DecQ(EncQ(q)) == if SafeQ(q) then Some(Tidy(q)) else None
  {
    hide EncQ, EncVal, DecVal, SafeTop, ValidVal;
    match q
    case Scalar(v) =>
      hide DecNode, DecBoundary, DecRel, SplitOnce;
      QSplit(q);
      ValueBack(v);
      assert Join(Fields(q), COLON) == EncVal(v);
    case QNode(n) => NodeBack(n);
    case QBoundary(b) => BoundaryBack(b);
    case QRel(r) => RelBack(r);
  }

  lemma FieldsPlain(q: QueryValue)
    requires ValidQ(q)
    ensures forall p :: p in Fields(q) ==> Plain(p)
  {
    hide Plain, EncVal, EncLabels, EncPropsText, Dec, Hex, ValidUtf8, ValidLabels, ValidProps, ValidVal, DecLabels;
    match q {
      case Scalar(v) => PlainVal(v);
      case QNode(n) =>
        PlainDec(n.id);
        LabelsBack(n.labels);
        PropsTextPlain(n.properties);
      case QBoundary(b) =>
        PlainDec(b.id);
        PlainDec(b.ownerShard);
        PlainDec(b.version);
        LabelsBack(b.labels);
        PropsTextPlain(b.properties);
      case QRel(r) =>
        PlainDec(r.id);
        PlainDec(r.from);
        PlainDec(r.to);
        PlainHex(r.relType);
        PropsTextPlain(r.properties);
    }
  }

  /** No separator of rows or cells inside a query value. */
  lemma QPlain(q: QueryValue)
    requires ValidQ(q)
    ensures Plain(EncQ(q))
  {
    hide Fields, Join, ValidQ;
    FieldsPlain(q);
    PlainJoin(Fields(q), COLON);
    PlainHead(QLetter(q), Join(Fields(q), COLON));
  }

  lemma PlainHead(x: byte, s: bytes)
    requires 0x40 <= x < 0x60 && Plain(s)
    ensures Plain([x] + ([COLON] + s))
  {
  }

  lemma CellBack(name: Text, q: QueryValue)
    requires ValidUtf8(name) && ValidQ(q)
    ensures DecCell(Cell(name, q)) == if SafeQ(q) then Some((name, Tidy(q))) else None
    ensures SEMI !in Cell(name, q) && BAR !in Cell(name, q) && Cell(name, q) != []
  {
    hide Hex, EncQ, DecQ, DecText, ValidQ, SafeQ, Tidy, ValidUtf8, SplitOnce;
    PlainHex(name);
    TextBack(name);
    QPlain(q);
    QueryValueBack(q);
    SplitOnceAt(Hex(name), EncQ(q), EQ);
    assert Cell(name, q)[|Hex(name)|] == EQ;
  }

  lemma {:induction false} CellsBack(row: QueryRow, names: seq<Text>, got: QueryRow)
    requires ValidRow(row) && forall k :: k in names ==> k in row
    requires forall k :: k in got ==> k in row && got[k] == Tidy(row[k])
    requires forall k :: k in row ==> k in got || k in names
    ensures DecCells(Cells(row, names), got) ==
            if forall k :: k in names ==> SafeQ(row[k]) then Some(TidyRow(row)) else None
    ensures forall p :: p in Cells(row, names) ==> SEMI !in p && BAR !in p && p != []
    decreases |names|
  {
    hide Cell, DecCell, SafeQ, Tidy, ValidQ, ValidUtf8;
    if names == [] {
      assert got == TidyRow(row);
    } else {
      var k := names[0];
      CellBack(k, row[k]);
      assert Cells(row, names)[1..] == Cells(row, names[1..]);
      assert forall j :: j in names <==> j == k || j in names[1..];
      CellsBack(row, names[1..], got[k := Tidy(row[k])]);
    }
  }

  /** A row written and read back. */
  lemma RowBack(row: QueryRow)
    requires ValidRow(row)
    ensures DecRow(EncRow(row)) == if SafeRow(row) then Some(TidyRow(row)) else None
    ensures BAR !in EncRow(row) && (EncRow(row) == [] <==> row == map[])
  {
    hide Cell, DecCells, SafeQ, Tidy, ValidRow, Join, Split;
    SortedKeysElements(row.Keys);
    var names := SortedKeys(row.Keys);
    var cells := Cells(row, names);
    CellsBack(row, names, map[]);
    JoinAvoids(cells, SEMI, BAR);
    JoinEmpty(cells, SEMI);
    if names == [] {
      assert forall k :: k in row ==> k in names;
      assert row == map[];
      assert TidyRow(row) == map[];
    } else {
      assert names[0] in row;
      assert cells[0] in cells;
      SplitJoin(cells, SEMI);
    }
  }

  lemma {:induction false} RowListBack(rows: seq<QueryRow>, i: nat, got: seq<QueryRow>)
    requires (forall j :: 0 <= j < |rows| ==> ValidRow(rows[j])) && i <= |rows|
    requires |got| == i && forall j :: 0 <= j < i ==> got[j] == TidyRow(rows[j])
    ensures DecRowList(RowTexts(rows)[i..], got) ==
            if forall j :: i <= j < |rows| ==> SafeRow(rows[j]) then Some(TidyRows(rows)) else None
    decreases |rows| - i
  {
    hide EncRow, DecRow, TidyRow, SafeRow, ValidRow;
    var rest := RowTexts(rows)[i..];
    if i == |rows| {
      assert got == TidyRows(rows);
    } else {
      RowBack(rows[i]);
      assert rest[0] == EncRow(rows[i]) && rest[1..] == RowTexts(rows)[i + 1..];
      if SafeRow(rows[i]) {
        RowListBack(rows, i + 1, got + [TidyRow(rows[i])]);
      }
    }
  }

  predicate SafeRows(rows: seq<QueryRow>) {
    forall j :: 0 <= j < |rows| ==> SafeRow(rows[j])
  }

  predicate ValidRows(rows: seq<QueryRow>) {
    forall j :: 0 <= j < |rows| ==> ValidRow(rows[j])
  }

  /** All rows: what writing and reading back gives. */
  lemma RowsBack(rows: seq<QueryRow>)
    requires ValidRows(rows)
    ensures DecRows(EncRows(rows)) ==
            if !SafeRows(rows) then None else if rows == [map[]] then Some([]) else Some(TidyRows(rows))
  {
    hide EncRow, DecRow, TidyRow, SafeRow, ValidRow, Join, Split, DecRowList;
    var texts := RowTexts(rows);
    forall p | p in texts
      ensures BAR !in p
    {
      var i :| 0 <= i < |texts| && texts[i] == p;
      RowBack(rows[i]);
    }
    JoinEmpty(texts, BAR);
    if |rows| == 1 {
      RowBack(rows[0]);
      assert rows == [rows[0]] && texts == [EncRow(rows[0])];
      assert SafeRow(map[]) by { EmptyRowSafe(); }
    }
    if Join(texts, BAR) != [] {
      SplitJoin(texts, BAR);
      RowListBack(rows, 0, []);
      assert texts[0..] == texts;
    }
  }

  lemma EmptyRowSafe()
    ensures SafeRow(map[])
  {
  }

  /** No node or boundary node whose labels are one empty label. */
  predicate NoBlankLabel(q: QueryValue) {
    (q.QNode? ==> q.node.labels != [[]]) && (q.QBoundary? ==> q.boundary.labels != [[]])
  }

  predicate NoBlankLabels(rows: seq<QueryRow>) {
    forall j, k :: 0 <= j < |rows| && k in rows[j] ==> NoBlankLabel(rows[j][k])
  }

  lemma TidyExactly(rows: seq<QueryRow>)
    ensures TidyRows(rows) == rows <==> NoBlankLabels(rows)
  {
    if NoBlankLabels(rows) {
      forall j | 0 <= j < |rows|
        ensures TidyRow(rows[j]) == rows[j]
      {
        forall k | k in rows[j]
          ensures Tidy(rows[j][k]) == rows[j][k]
        {
          assert NoBlankLabel(rows[j][k]);
        }
      }
    } else {
      var j, k :| 0 <= j < |rows| && k in rows[j] && !NoBlankLabel(rows[j][k]);
      assert TidyRows(rows)[j][k] == Tidy(rows[j][k]);
    }
  }

  /**
   * Rows come back as they were exactly when no property holds a vector of two or more numbers,
   * no node carries a single empty label, and the result is not one empty row.
   */
  lemma RowsExactly(rows: seq<QueryRow>)
    requires ValidRows(rows)
    ensures DecRows(EncRows(rows)) == Some(rows) <==>
            SafeRows(rows) && NoBlankLabels(rows) && rows != [map[]]
  {
    hide EncRows, DecRows, SafeRows, NoBlankLabels, ValidRows;
    RowsBack(rows);
    TidyExactly(rows);
  }

  // ----- The decoding loops -----

  method DecodeQueryRow(s: bytes) returns (r: Option<QueryRow>)
    ensures r == DecRow(s)
  {
    var row: QueryRow := map[];
    if s == [] {
      return Some(row);
    }
    var cells := Split(s, SEMI);
    for i := 0 to |cells|
      invariant DecCells(cells[i..], row) == DecCells(cells, map[])
    {
      assert cells[i..][0] == cells[i] && cells[i..][1..] == cells[i + 1..];
      var cell := DecCell(cells[i]);
      if cell.None? {
        return None;
      }
      row := row[cell.value.0 := cell.value.1];
    }
    assert cells[|cells|..] == [];
    return Some(row);
  }

  method DecodeProperties(s: bytes) returns (r: Option<Properties>)
    ensures r == DecProps(s)
  {
    hide DecVal, DecText;
    var m: Properties := map[];
    if s == [] {
      return Some(m);
    }
    var entries := Split(s, COMMA);
    SplitShorter(s, COMMA);
    assert entries[0..] == entries;
    for i := 0 to |entries|
      invariant Fits(entries[i..], |s|)
      invariant DecEntries(entries[i..], |s|, m) == DecEntries(entries, |s|, map[])
    {
      assert entries[i..][0] == entries[i] && entries[i..][1..] == entries[i + 1..];
      var split := SplitOnce(entries[i], TILDE);
      if split.None? {
        return None;
      }
      var key := DecText(split.value.0);
      var value := DecVal(split.value.1);
      if key.None? || value.None? {
        return None;
      }
      m := m[key.value := value.value];
    }
    assert entries[|entries|..] == [];
    return Some(m);
  }
}
