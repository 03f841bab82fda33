/**
 * The text encoding of query results: rows split by bars, cells by semicolons, properties by
 * commas. Decoding gives the rows back except in three corner cases, and exactly then.
 */
module RowCodec {
  import opened Basics
  import opened Model
  import opened Codec
  import opened RowText

  const BAR: byte := 0x7C
  const SEMI: byte := 0x3B
  const EQ: byte := 0x3D
  const COMMA: byte := 0x2C
  const TILDE: byte := 0x7E
  const COLON: byte := 0x3A

  datatype QueryValue =
    | Scalar(v: Value)
    | QNode(node: Node)
    | QBoundary(boundary: BoundaryNode)
    | QRel(rel: Relationship)

  type QueryRow = map<Text, QueryValue>

  // ----- Encoding -----

  function Letter(v: Value): byte {
    match v
    case VNull => 0x6E
    case VBool(_) => 0x62
    case VInt(_) => 0x69
    case VFloat(_) => 0x66
    case VString(_) => 0x73
    case VVector(_) => 0x76
    case VMap(_) => 0x6D
  }

  function Decs(items: seq<u32>): (r: seq<bytes>)
    ensures |r| == |items|
  {
    if items == [] then [] else Decs(items[..|items| - 1]) + [Dec(items[|items| - 1])]
  }

  /** What stands behind the kind letter and the colon. */
  function Payload(v: Value): bytes
    decreases v, 1
  {
    match v
    case VNull => []
    case VBool(b) => [if b then 0x31 else 0x30]
    case VInt(x) => Signed64(x)
    case VFloat(bits) => Dec(bits)
    case VString(s) => Hex(s)
    case VVector(items) => Join(Decs(items), COMMA)
    case VMap(m) =>
      SortedKeysElements(m.Keys);
      Hex(Join(Entries(v, SortedKeys(m.Keys)), COMMA))
  }

  function EncVal(v: Value): bytes
    decreases v, 2
  {
    if v == VNull then [0x6E] else [Letter(v), COLON] + Payload(v)
  }

  function Entry(k: Text, v: Value): bytes
    decreases v, 3
  {
    Hex(k) + ([TILDE] + EncVal(v))
  }

  /** One piece of text per listed property. */
  function Entries(v: Value, keys: seq<Text>): (r: seq<bytes>)
    requires v.VMap? && forall k :: k in keys ==> k in v.entries
    ensures |r| == |keys|
    decreases v, 0, |keys|
  {
    if keys == [] then []
    else [Entry(keys[0], v.entries[keys[0]])] + Entries(v, keys[1..])
  }

  function EncPropsText(m: Properties): bytes {
    SortedKeysElements(m.Keys);
    Join(Entries(VMap(m), SortedKeys(m.Keys)), COMMA)
  }

  // ----- Decoding -----

  function DecItems(parts: seq<bytes>, got: seq<u32>): Option<seq<u32>>
    decreases |parts|
  {
    if parts == [] then Some(got)
    else
      var x := ParseU32Text(parts[0]);
      if x.None? then None else DecItems(parts[1..], got + [x.value])
  }

  function DecText(s: bytes): Option<Text> {
    var t := Unhex(s);
    if t.Some? && ValidUtf8(t.value) then t else None
  }

  predicate Fits(parts: seq<bytes>, bound: nat) {
    forall p :: p in parts ==> |p| <= bound
  }

  function DecVal(s: bytes): Option<Value>
    decreases |s|, 0
  {
    if s == [0x6E] then Some(VNull)
    else
      match SplitOnce(s, COLON)
      case None => None
      case Some((kind, payload)) =>
        if kind == [0x62] then
          if payload == [0x30] then Some(VBool(false)) else if payload == [0x31] then Some(VBool(true)) else None
        else if kind == [0x69] then
          var x := ParseI64Text(payload);
          if x.Some? then Some(VInt(x.value)) else None
        else if kind == [0x66] then
          var x := ParseU64Text(payload);
          if x.Some? then Some(VFloat(x.value)) else None
        else if kind == [0x73] then
          var t := DecText(payload);
          if t.Some? then Some(VString(t.value)) else None
        else if kind == [0x76] then
          var items := if payload == [] then Some([]) else DecItems(Split(payload, COMMA), []);
          if items.Some? then Some(VVector(items.value)) else None
        else if kind == [0x6D] then
          var t := DecText(payload);
          if t.None? then None
          else
            var m := DecProps(t.value);
            if m.Some? then Some(VMap(m.value)) else None
        else None
  }

  function DecProps(s: bytes): Option<Properties>
    decreases |s|, 2
  {
    if s == [] then Some(map[])
    else
      SplitShorter(s, COMMA);
      DecEntries(Split(s, COMMA), |s|, map[])
  }

  function DecEntries(parts: seq<bytes>, bound: nat, got: Properties): Option<Properties>
    requires Fits(parts, bound)
    decreases bound, 1, |parts|
  {
    if parts == [] then Some(got)
    else
      assert parts[0] in parts && forall p :: p in parts[1..] ==> p in parts;
      match SplitOnce(parts[0], TILDE)
      case None => None
      case Some((name, value)) =>
        var k := DecText(name);
        var v := DecVal(value);
        if k.None? || v.None? then None
        else DecEntries(parts[1..], bound, got[k.value := v.value])
  }

  // ----- What comes back -----

  /** Rust strings: valid UTF-8 wherever text occurs. */
  predicate ValidVal(v: Value) {
    match v
    case VString(s) => ValidUtf8(s)
    case VMap(m) => forall k :: k in m ==> ValidUtf8(k) && ValidVal(m[k])
    case _ => true
  }

  /** A vector with a comma in its text. */
  predicate Spreads(v: Value) {
    v.VVector? && |v.items| >= 2
  }

  /** As a property: no spreading vector here or in any map below. */
  predicate SafeVal(v: Value) {
    !Spreads(v) && (v.VMap? ==> forall k :: k in v.entries ==> SafeVal(v.entries[k]))
  }

  predicate SafeProps(m: Properties) {
    forall k :: k in m ==> SafeVal(m[k])
  }

  /** Outside properties a vector may have any length. */
  predicate SafeTop(v: Value) {
    v.VMap? ==> SafeProps(v.entries)
  }

  // ----- Characters -----

  /** No separator of rows, cells or names. */
  predicate Plain(s: bytes) {
    forall c {:trigger c in s} :: c in s ==> c < 0x80 && c != BAR && c != SEMI && c != EQ
  }

  lemma PlainHex(bs: bytes)
    ensures Plain(Hex(bs)) && COMMA !in Hex(bs) && TILDE !in Hex(bs) && COLON !in Hex(bs)
  {
    forall c | c in Hex(bs)
      ensures 0x30 <= c <= 0x39 || 0x61 <= c <= 0x66
    {
      HexBytes(bs, c);
    }
  }

  lemma PlainDec(n: nat)
    ensures Plain(Dec(n)) && COMMA !in Dec(n) && TILDE !in Dec(n) && COLON !in Dec(n)
  {
    forall c | c in Dec(n)
      ensures 0x30 <= c <= 0x39
    {
      DecBytes(n, c);
    }
  }

  lemma {:induction false} DecsParts(items: seq<u32>)
    ensures |Decs(items)| == |items|
    ensures forall p :: p in Decs(items) ==> Plain(p) && p != [] && COMMA !in p && TILDE !in p
    ensures forall i :: 0 <= i < |items| ==> Decs(items)[i] == Dec(items[i])
  {
    hide Plain, Dec;
    if items != [] {
      DecsParts(items[..|items| - 1]);
      PlainDec(items[|items| - 1]);
    }
  }

  lemma {:induction false} PlainJoin(parts: seq<bytes>, c: byte)
    requires c < 0x80 && c != BAR && c != SEMI && c != EQ && forall p :: p in parts ==> Plain(p)
    ensures Plain(Join(parts, c))
    decreases |parts|
  {
    if |parts| > 0 {
      assert parts[0] in parts;
      if |parts| > 1 {
        assert forall p :: p in parts[1..] ==> p in parts;
        PlainJoin(parts[1..], c);
      }
    }
  }

  lemma PlainPayload(v: Value)
    ensures Plain(Payload(v)) && TILDE !in Payload(v)
    ensures COMMA in Payload(v) <==> Spreads(v)
  {
    match v
    case VNull =>
    case VBool(_) =>
    case VInt(x) => PlainDec(if x < 0 then -(x as int) else x);
    case VFloat(bits) => PlainDec(bits);
    case VString(s) => PlainHex(s);
    case VVector(items) => PlainVector(items);
    case VMap(m) =>
      SortedKeysElements(m.Keys);
      PlainHex(Join(Entries(v, SortedKeys(m.Keys)), COMMA));
  }

  lemma PlainVector(items: seq<u32>)
    ensures Plain(Join(Decs(items), COMMA)) && TILDE !in Join(Decs(items), COMMA)
    ensures COMMA in Join(Decs(items), COMMA) <==> |items| >= 2
  {
    hide Plain, Dec;
    DecsParts(items);
    PlainJoin(Decs(items), COMMA);
    JoinAvoids(Decs(items), COMMA, TILDE);
    if |items| == 1 { assert Decs(items)[0] in Decs(items); }
    if |items| >= 2 {
      var parts := Decs(items);
      assert Join(parts, COMMA)[|parts[0]|] == COMMA;
    }
  }

  lemma PlainVal(v: Value)
    ensures Plain(EncVal(v)) && TILDE !in EncVal(v)
    ensures COMMA in EncVal(v) <==> Spreads(v)
  {
    hide Payload, Spreads;
    PlainPayload(v);
    assert v == VNull ==> !Spreads(v) by { NullDoesNotSpread(); }
    if v != VNull { assert forall c :: c in EncVal(v) <==> c == Letter(v) || c == COLON || c in Payload(v); }
  }

  lemma NullDoesNotSpread()
    ensures !Spreads(VNull)
  {
  }

  lemma PlainEntry(k: Text, v: Value)
    ensures Plain(Entry(k, v)) && (COMMA in Entry(k, v) <==> Spreads(v)) && Entry(k, v) != []
  {
    hide EncVal, Hex, Spreads;
    PlainHex(k);
    PlainVal(v);
    assert forall c :: c in Entry(k, v) <==> c in Hex(k) || c == TILDE || c in EncVal(v);
    assert Entry(k, v)[|Hex(k)|] == TILDE;
  }

  lemma {:induction false} PlainEntries(v: Value, keys: seq<Text>)
    requires v.VMap? && forall k :: k in keys ==> k in v.entries
    ensures forall p :: p in Entries(v, keys) ==> Plain(p) && p != []
    ensures forall i :: 0 <= i < |keys| ==> Entries(v, keys)[i] == Entry(keys[i], v.entries[keys[i]])
    decreases |keys|
  {
    hide Entry, Plain;
    if keys != [] {
      assert forall k :: k in keys[1..] ==> k in keys;
      PlainEntries(v, keys[1..]);
      PlainEntry(keys[0], v.entries[keys[0]]);
    }
  }

  // ----- Vectors and texts -----

  lemma {:induction false} ItemsBack(items: seq<u32>, k: nat, got: seq<u32>)
    requires k <= |items| && got == items[..k]
    ensures DecItems(Decs(items)[k..], got) == Some(items)
    decreases |items| - k
  {
    hide Dec, ParseNat;
    DecsParts(items);
    var rest := Decs(items)[k..];
    if k == |items| {
      assert items[..k] == items && rest == [];
    } else {
      assert rest[0] == Dec(items[k]) && rest[1..] == Decs(items)[k + 1..];
      DecRoundTrip(items[k], 0x1_0000_0000);
      assert items[..k + 1] == items[..k] + [items[k]];
      ItemsBack(items, k + 1, got + [items[k]]);
    }
  }

  lemma VectorBack(items: seq<u32>)
    ensures var payload := Join(Decs(items), COMMA);
            (if payload == [] then Some([]) else DecItems(Split(payload, COMMA), [])) == Some(items)
  {
    hide Dec, Plain;
    DecsParts(items);
    JoinEmpty(Decs(items), COMMA);
    if items != [] {
      assert Decs(items)[0] in Decs(items);
      SplitJoin(Decs(items), COMMA);
      ItemsBack(items, 0, []);
      assert Decs(items)[0..] == Decs(items);
    }
  }

  lemma TextBack(s: Text)
    requires ValidUtf8(s)
    ensures DecText(Hex(s)) == Some(s)
  {
    HexRoundTrip(s);
  }

  lemma PlainValid(s: bytes)
    requires Plain(s)
    ensures ValidUtf8(s)
  {
    forall j | 0 <= j < |s|
      ensures s[j] < 0x80
    {
      assert s[j] in s;
    }
    AsciiValid(s, 0);
  }

  // ----- Values and properties -----

  lemma KindSplit(v: Value)
    requires v != VNull
    ensures EncVal(v) != [0x6E] && SplitOnce(EncVal(v), COLON) == Some(([Letter(v)], Payload(v)))
  {
    hide Payload;
    assert EncVal(v) == [Letter(v)] + ([COLON] + Payload(v));
    SplitOnceAt([Letter(v)], Payload(v), COLON);
  }

  lemma SimpleBack(v: Value)
    requires ValidVal(v) && !v.VMap?
    ensures DecVal(EncVal(v)) == Some(v)
  {
    hide Dec, Hex, Signed64, ParseI64Text, ParseNat, DecText, Split, Join, SplitOnce, EncVal, ValidUtf8;
    if v == VNull {
      NullText();
    } else {
      KindSplit(v);
      match v
      case VBool(_) =>
      case VInt(x) => SignedRoundTrip(x);
      case VFloat(bits) => DecRoundTrip(bits, 0x1_0000_0000_0000_0000);
      case VString(s) => TextBack(s);
      case VVector(items) => VectorBack(items);
    }
  }

  lemma NullText()
    ensures EncVal(VNull) == [0x6E]
  {
  }

  /** A map value comes back as whatever its property text decodes to. */
  lemma MapBack(m: Properties)
    ensures DecVal(EncVal(VMap(m))) ==
            match DecProps(EncPropsText(m))
            case Some(m') => Some(VMap(m'))
            case None => None
  {
    hide Hex, DecProps, EncPropsText, EncVal, Entries, Plain;
    KindSplit(VMap(m));
    var text := EncPropsText(m);
    PropsTextPlain(m);
    PlainValid(text);
    TextBack(text);
    assert Payload(VMap(m)) == Hex(text) by { MapPayload(m); }
  }

  lemma MapPayload(m: Properties)
    ensures Payload(VMap(m)) == Hex(EncPropsText(m))
  {
  }

  lemma PropsTextPlain(m: Properties)
    ensures Plain(EncPropsText(m))
  {
    hide Plain, Entries;
    SortedKeysElements(m.Keys);
    PlainEntries(VMap(m), SortedKeys(m.Keys));
    PlainJoin(Entries(VMap(m), SortedKeys(m.Keys)), COMMA);
  }

  /** The text of each entry, read as one piece. */
  lemma EntrySplit(k: Text, v: Value)
    requires ValidUtf8(k)
    ensures SplitOnce(Entry(k, v), TILDE) == Some((Hex(k), EncVal(v))) && DecText(Hex(k)) == Some(k)
  {
    hide Hex, EncVal, Plain;
    PlainHex(k);
    SplitOnceAt(Hex(k), EncVal(v), TILDE);
    TextBack(k);
  }

  /** A piece without a tilde spoils the whole list. */
  lemma {:induction false} PieceSpoils(parts: seq<bytes>, bound: nat, got: Properties, piece: bytes)
    requires Fits(parts, bound) && piece in parts && TILDE !in piece
    ensures DecEntries(parts, bound, got) == None
    decreases |parts|
  {
    hide DecVal, DecText;
    if parts[0] == piece {
      SplitNever(piece, TILDE);
    } else {
      assert piece in parts[1..] && forall p :: p in parts[1..] ==> p in parts;
      var split := SplitOnce(parts[0], TILDE);
      if split.Some? && DecText(split.value.0).Some? && DecVal(split.value.1).Some? {
        PieceSpoils(parts[1..], bound, got[DecText(split.value.0).value := DecVal(split.value.1).value], piece);
      }
    }
  }

  /** A spreading vector leaves its second number as a piece of its own. */
  lemma SpreadPiece(k: Text, items: seq<u32>)
    requires |items| >= 2
    ensures Dec(items[1]) in Split(Entry(k, VVector(items)), COMMA) && TILDE !in Dec(items[1])
  {
    hide Hex, Dec, Plain;
    var parts, head := Decs(items), Hex(k) + ([TILDE] + [0x76, COLON]);
    DecsParts(items);
    PlainDec(items[1]);
    var rest := Join(parts[1..], COMMA);
    assert Payload(VVector(items)) == parts[0] + ([COMMA] + rest);
    assert Entry(k, VVector(items)) == (head + parts[0]) + ([COMMA] + rest);
    SplitAppend(head + parts[0], rest, COMMA);
    SecondPiece(parts);
  }

  lemma SecondPiece(parts: seq<bytes>)
    requires |parts| >= 2 && COMMA !in parts[1]
    ensures parts[1] in Split(Join(parts[1..], COMMA), COMMA)
  {
    SplitNever(parts[1], COMMA);
    SplitJoinPiece(parts[1..], COMMA, 0, parts[1]);
  }

  lemma SpreadingFails(m: Properties, k: Text)
    requires k in m && Spreads(m[k])
    ensures DecProps(EncPropsText(m)) == None
  {
    hide DecEntries, Entry, Plain, Split, Dec;
    SortedKeysElements(m.Keys);
    var keys := SortedKeys(m.Keys);
    var es, text := Entries(VMap(m), keys), EncPropsText(m);
    PlainEntries(VMap(m), keys);
    var i :| 0 <= i < |keys| && keys[i] == k;
    SpreadPiece(k, m[k].items);
    SplitJoinPiece(es, COMMA, i, Dec(m[k].items[1]));
    assert es[i] in es;
    JoinEmpty(es, COMMA);
    SplitShorter(text, COMMA);
    PieceSpoils(Split(text, COMMA), |text|, map[], Dec(m[k].items[1]));
  }

  ghost predicate Returns(v: Value) {
    DecVal(EncVal(v)) == if SafeTop(v) then Some(v) else None
  }

  lemma EntryStep(parts: seq<bytes>, bound: nat, got: Properties, k: Text, x: Value)
    requires parts != [] && Fits(parts, bound) && parts[0] == Entry(k, x) && ValidUtf8(k) && Returns(x)
    ensures Fits(parts[1..], bound)
    ensures DecEntries(parts, bound, got) ==
            if SafeTop(x) then DecEntries(parts[1..], bound, got[k := x]) else None
  {
    hide Entry, SafeTop, DecVal, EncVal, ValidUtf8, DecText, SplitOnce, Hex;
    assert forall p :: p in parts[1..] ==> p in parts;
    EntrySplit(k, x);
  }

  /** Reading entries when none of them spreads; what is not among them was read before. */
  lemma {:induction false} EntriesBack(v: Value, keys: seq<Text>, bound: nat, got: Properties)
    requires v.VMap? && (forall k :: k in keys ==> k in v.entries && ValidUtf8(k) && Returns(v.entries[k]))
    requires Fits(Entries(v, keys), bound)
    requires forall k :: k in got ==> k in v.entries && got[k] == v.entries[k]
    requires forall k :: k in v.entries ==> k in got || k in keys
    ensures DecEntries(Entries(v, keys), bound, got)
         == if forall k :: k in keys ==> SafeTop(v.entries[k]) then Some(v.entries) else None
    decreases |keys|
  {
    hide Entry, SafeTop, ValidUtf8, Fits, Returns;
    var parts := Entries(v, keys);
    if keys == [] {
      assert got == v.entries;
    } else {
      var k := keys[0];
      assert parts[1..] == Entries(v, keys[1..]);
      EntryStep(parts, bound, got, k, v.entries[k]);
      assert forall j :: j in keys <==> j == k || j in keys[1..];
      if SafeTop(v.entries[k]) {
        EntriesBack(v, keys[1..], bound, got[k := v.entries[k]]);
      }
    }
  }

  lemma PropsStep(m: Properties)
    requires forall k :: k in m ==> ValidUtf8(k) && Returns(m[k])
    ensures DecProps(EncPropsText(m)) == if SafeProps(m) then Some(m) else None
  {
    hide Entry, Entries, DecEntries, SafeTop, ValidUtf8, Spreads, Plain, Split, Join, Returns;
    if k :| k in m && Spreads(m[k]) {
      SpreadingFails(m, k);
      SafeSplits(m[k]);
    } else {
      NoSpreadBack(m);
      forall k | k in m
        ensures SafeVal(m[k]) <==> SafeTop(m[k])
      {
        SafeSplits(m[k]);
      }
    }
  }

  lemma SafeSplits(v: Value)
    ensures SafeVal(v) <==> !Spreads(v) && SafeTop(v)
  {
  }

  lemma NoSpreadBack(m: Properties)
    requires forall k :: k in m ==> ValidUtf8(k) && Returns(m[k]) && !Spreads(m[k])
    ensures DecProps(EncPropsText(m)) == if forall k :: k in m ==> SafeTop(m[k]) then Some(m) else None
  {
    hide Entry, DecEntries, SafeTop, ValidUtf8, Spreads, Plain, Split, Join, Returns;
    SortedKeysElements(m.Keys);
    var keys := SortedKeys(m.Keys);
    var es, text := Entries(VMap(m), keys), EncPropsText(m);
    PlainEntries(VMap(m), keys);
    JoinEmpty(es, COMMA);
    if keys == [] {
      assert m == map[] by {
        assert forall k :: k in m ==> k in keys;
      }
      EmptyJoin(COMMA);
    } else {
      assert es[0] in es;
      forall p | p in es
        ensures COMMA !in p
      {
        var j :| 0 <= j < |es| && es[j] == p;
        PlainEntry(keys[j], m[keys[j]]);
      }
      SplitJoin(es, COMMA);
      SplitShorter(text, COMMA);
      EntriesBack(VMap(m), keys, |text|, map[]);
    }
  }

  lemma EmptyJoin(c: byte)
    ensures Join([], c) == []
  {
  }

  /** Any value, written and read back: itself, or refused because of a spreading vector below it. */
  lemma {:induction false} ValueBack(v: Value)
    requires ValidVal(v)
    ensures DecVal(EncVal(v)) == if SafeTop(v) then Some(v) else None
    decreases v
  {
    hide DecVal, EncVal, SafeProps;
    if v.VMap? {
      forall k | k in v.entries
        ensures ValidUtf8(k) && Returns(v.entries[k])
      {
        ValueBack(v.entries[k]);
      }
      PropsStep(v.entries);
      MapBack(v.entries);
    } else {
      SimpleBack(v);
    }
  }

  predicate ValidProps(m: Properties) {
    forall k :: k in m ==> ValidUtf8(k) && ValidVal(m[k])
  }

  /** Properties come back exactly when no vector of two or more numbers stands among them. */
  lemma PropertiesExactly(m: Properties)
    requires ValidProps(m)
    ensures DecProps(EncPropsText(m)) == if SafeProps(m) then Some(m) else None
  {
    hide DecProps, EncPropsText, SafeProps, ValidUtf8;
    forall k | k in m
      ensures Returns(m[k])
    {
      ValueBack(m[k]);
    }
    PropsStep(m);
  }
}
