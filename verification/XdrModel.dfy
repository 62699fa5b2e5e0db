/** The message formats of proto_xdr.c over XDR (RFC 4506): what each filter writes and reads,
    and that reading gives back what was written. */
module XdrModel {
  type byte = b: nat | b < 256

  const TWO_31: int := 0x8000_0000
  const TWO_32: int := 0x1_0000_0000
  const TWO_64: int := 0x1_0000_0000_0000_0000

  /** The primitive filters. Enumerations are PInt. */
  datatype Prim = PInt | PBool | PULong | POpaque(n: nat) | PString | PBytes

  /** A field of a message: a primitive, or an array of structures whose C type takes
      `elsize` bytes. */
  datatype Field = F(p: Prim) | A(elem: seq<Prim>, elsize: nat)

  datatype Val = VInt(i: int) | VBool(b: bool) | VULong(n: nat) | VBytes(s: seq<byte>)

  datatype FieldVal = FV(v: Val) | AV(rows: seq<seq<Val>>)

  /** The bytes a filter has written when it returns, and whether it refused the value */
  datatype Bytes = Refused(s: seq<byte>) | Bytes(s: seq<byte>)

  datatype Got<T> = Failed | Got(v: T, rest: seq<byte>)

  // ----- the messages -----

  const UUID: Prim := POpaque(16)

  // sizes of the element types with 64-bit pointers
  const REPLICA_INFO_SIZE := 32
  const LOG_ENTRY_SIZE := 16
  const DATA_OP_SIZE := 24

  const REPLICA_INFO: seq<Prim> := [UUID, PInt, PString]
  const LOG_ENTRY: seq<Prim> := [PBytes]
  const DATA_OP: seq<Prim> := [PInt, PBytes]

  const BOOTSTRAP: seq<Field> := [F(PInt), F(UUID), F(PInt), F(PString)]
  const RESP_BOOTSTRAP: seq<Field> := [F(PInt), F(PBool), A(REPLICA_INFO, REPLICA_INFO_SIZE)]
  const CONNECT: seq<Field> := [F(PInt), F(POpaque(4)), F(POpaque(4))]
  const RESP_CONNECT: seq<Field> := [F(PInt), F(POpaque(4)), F(PBool)]
  const CONSENSUS: seq<Field> :=
    [F(PInt), F(PBool), F(UUID), F(PULong), F(PULong), F(PULong), F(PULong), A(LOG_ENTRY, LOG_ENTRY_SIZE)]
  const RESP_CONSENSUS: seq<Field> := [F(PInt), F(PULong), F(PBool)]
  const CONTROL: seq<Field> := [F(PInt), F(PInt), F(UUID)]
  const RESP_CONTROL: seq<Field> := [F(PInt), F(PBool)]
  const DATA: seq<Field> := [F(PInt), F(PInt), F(PInt), A(DATA_OP, DATA_OP_SIZE)]
  const RESP_DATA: seq<Field> := [F(PInt), F(PBool)]

  // ----- what the C types can hold -----

  predicate NoNul(s: seq<byte>) {
    forall i :: 0 <= i < |s| ==> s[i] != 0
  }

  predicate Fits(p: Prim, v: Val) {
    match p
    case PInt => v.VInt? && -TWO_31 <= v.i < TWO_31
    case PBool => v.VBool?
    case PULong => v.VULong? && v.n < TWO_64
    case POpaque(n) => v.VBytes? && |v.s| == n
    case PString => v.VBytes? && NoNul(v.s) && |v.s| < TWO_32
    case PBytes => v.VBytes? && |v.s| < TWO_32
  }

  predicate RowFits(ps: seq<Prim>, vs: seq<Val>) {
    |vs| == |ps| && forall i :: 0 <= i < |ps| ==> Fits(ps[i], vs[i])
  }

  predicate FieldFits(f: Field, v: FieldVal) {
    match f
    case F(p) => v.FV? && Fits(p, v.v)
    case A(elem, _) => v.AV? && |v.rows| < TWO_32 && forall i :: 0 <= i < |v.rows| ==> RowFits(elem, v.rows[i])
  }

  predicate MsgFits(fs: seq<Field>, vs: seq<FieldVal>) {
    |vs| == |fs| && forall i :: 0 <= i < |fs| ==> FieldFits(fs[i], vs[i])
  }

  // ----- primitives -----

  function Word(w: int): (s: seq<byte>)
    requires 0 <= w < TWO_32
    ensures |s| == 4
  {
    var w1 := w / 256;
    var w2 := w1 / 256;
    var w3 := w2 / 256;
    [w3 % 256, w2 % 256, w1 % 256, w % 256]
  }

  function UnWord(s: seq<byte>): (w: int)
    requires |s| == 4
    ensures 0 <= w < TWO_32
  {
    ((s[0] as int * 256 + s[1] as int) * 256 + s[2] as int) * 256 + s[3] as int
  }

  lemma WordRoundTrip(w: int)
    requires 0 <= w < TWO_32
    ensures UnWord(Word(w)) == w
    ensures w < 256 ==> Word(w) == [0, 0, 0, w]
  {
  }

  /** Two's complement */
  function OfInt(i: int): (w: int)
    requires -TWO_31 <= i < TWO_31
    ensures 0 <= w < TWO_32
  {
    if i < 0 then i + TWO_32 else i
  }

  function ToInt(w: int): int {
    if w < TWO_31 then w else w - TWO_32
  }

  function Pad(n: nat): nat {
    (4 - n % 4) % 4
  }

  function Zeros(n: nat): seq<byte> {
    seq(n, _ => 0)
  }

  function Opaque(s: seq<byte>): seq<byte> {
    s + Zeros(Pad(|s|))
  }

  /** What a filter writes; an unsigned long of more than 32 bits and, once its length is
      written, a string whose length plus one does not fit are refused. */
  function Enc(p: Prim, v: Val): Bytes
    requires Fits(p, v)
  {
    match p
    case PInt => Bytes(Word(OfInt(v.i)))
    case PBool => Bytes(Word(if v.b then 1 else 0))
    case PULong => if v.n < TWO_32 then Bytes(Word(v.n)) else Refused([])
    case POpaque(n) => Bytes(Opaque(v.s))
    case PString => if |v.s| + 1 < TWO_32 then Bytes(Word(|v.s|) + Opaque(v.s)) else Refused(Word(|v.s|))
    case PBytes => Bytes(Word(|v.s|) + Opaque(v.s))
  }

  function DecWord(s: seq<byte>): Got<int> {
    if |s| < 4 then Failed else Got(UnWord(s[..4]), s[4..])
  }

  function DecOpaque(s: seq<byte>, n: nat): Got<seq<byte>> {
    if |s| < n + Pad(n) then Failed else Got(s[..n], s[n + Pad(n)..])
  }

  /** A C string ends at its first NUL. */
  function CString(s: seq<byte>): seq<byte> {
    if s == [] || s[0] == 0 then [] else [s[0]] + CString(s[1..])
  }

  function DecCounted(s: seq<byte>): Got<seq<byte>> {
    match DecWord(s)
    case Failed => Failed
    case Got(n, rest) => DecOpaque(rest, n)
  }

  function Dec(p: Prim, s: seq<byte>): Got<Val> {
    match p
    case PInt => (match DecWord(s) case Failed => Failed case Got(w, rest) => Got(VInt(ToInt(w)), rest))
    case PBool => (match DecWord(s) case Failed => Failed case Got(w, rest) => Got(VBool(w != 0), rest))
    case PULong => (match DecWord(s) case Failed => Failed case Got(w, rest) => Got(VULong(w), rest))
    case POpaque(n) => (match DecOpaque(s, n) case Failed => Failed case Got(t, rest) => Got(VBytes(t), rest))
    case PString =>
      if |s| >= 4 && UnWord(s[..4]) + 1 == TWO_32 then Failed
      else (match DecCounted(s) case Failed => Failed case Got(t, rest) => Got(VBytes(CString(t)), rest))
    case PBytes => (match DecCounted(s) case Failed => Failed case Got(t, rest) => Got(VBytes(t), rest))
  }

  // ----- structures, arrays and messages -----

  function Then(a: Bytes, b: Bytes): Bytes {
    if a.Refused? then a else if b.Refused? then Refused(a.s + b.s) else Bytes(a.s + b.s)
  }

  function EncRow(ps: seq<Prim>, vs: seq<Val>): Bytes
    requires RowFits(ps, vs)
  {
    if ps == [] then Bytes([]) else Then(Enc(ps[0], vs[0]), EncRow(ps[1..], vs[1..]))
  }

  function EncRows(elem: seq<Prim>, rows: seq<seq<Val>>): Bytes
    requires forall i :: 0 <= i < |rows| ==> RowFits(elem, rows[i])
  {
    if rows == [] then Bytes([]) else Then(EncRow(elem, rows[0]), EncRows(elem, rows[1..]))
  }

  /** xdr_array takes no more elements than fill 32 bits of memory; it looks at the count once
      it has written or read it. */
  predicate CountOk(c: int, elsize: nat) {
    elsize > 0 && c <= (TWO_32 - 1) / elsize
  }

  function EncField(f: Field, v: FieldVal): Bytes
    requires FieldFits(f, v)
  {
    match f
    case F(p) => Enc(p, v.v)
    case A(elem, elsize) =>
      if CountOk(|v.rows|, elsize) then Then(Bytes(Word(|v.rows|)), EncRows(elem, v.rows))
      else Refused(Word(|v.rows|))
  }

  function EncMsg(fs: seq<Field>, vs: seq<FieldVal>): Bytes
    requires MsgFits(fs, vs)
  {
    if fs == [] then Bytes([]) else Then(EncField(fs[0], vs[0]), EncMsg(fs[1..], vs[1..]))
  }

  function DecRow(ps: seq<Prim>, s: seq<byte>): Got<seq<Val>> {
    if ps == [] then Got([], s)
    else
      match Dec(ps[0], s)
      case Failed => Failed
      case Got(v, rest) =>
        match DecRow(ps[1..], rest)
        case Failed => Failed
        case Got(vs, rest') => Got([v] + vs, rest')
  }

  function DecRows(elem: seq<Prim>, c: nat, s: seq<byte>): Got<seq<seq<Val>>> {
    if c == 0 then Got([], s)
    else
      match DecRow(elem, s)
      case Failed => Failed
      case Got(row, rest) =>
        match DecRows(elem, c - 1, rest)
        case Failed => Failed
        case Got(rows, rest') => Got([row] + rows, rest')
  }

  function DecField(f: Field, s: seq<byte>): Got<FieldVal> {
    match f
    case F(p) => (match Dec(p, s) case Failed => Failed case Got(v, rest) => Got(FV(v), rest))
    case A(elem, elsize) =>
      match DecWord(s)
      case Failed => Failed
      case Got(c, rest) =>
        if !CountOk(c, elsize) then Failed
        else
          match DecRows(elem, c, rest)
          case Failed => Failed
          case Got(rows, rest') => Got(AV(rows), rest')
  }

  function DecMsg(fs: seq<Field>, s: seq<byte>): Got<seq<FieldVal>> {
    if fs == [] then Got([], s)
    else
      match DecField(fs[0], s)
      case Failed => Failed
      case Got(v, rest) =>
        match DecMsg(fs[1..], rest)
        case Failed => Failed
        case Got(vs, rest') => Got([v] + vs, rest')
  }

  // ----- round trips -----

  lemma {:induction false} CStringWhole(s: seq<byte>)
    requires NoNul(s)
    ensures CString(s) == s
  {
    if s != [] {
      assert NoNul(s[1..]);
      CStringWhole(s[1..]);
    }
  }

  lemma WordFirst(w: int, rest: seq<byte>)
    requires 0 <= w < TWO_32
    ensures DecWord(Word(w) + rest) == Got(w, rest)
  {
    assert (Word(w) + rest)[..4] == Word(w);
    assert (Word(w) + rest)[4..] == rest;
    WordRoundTrip(w);
  }

  lemma OpaqueFirst(s: seq<byte>, rest: seq<byte>)
    ensures DecOpaque(Opaque(s) + rest, |s|) == Got(s, rest)
  {
    var t := Opaque(s) + rest;
    assert t[..|s|] == s;
    assert t[|s| + Pad(|s|)..] == rest;
  }

  lemma CountedFirst(s: seq<byte>, rest: seq<byte>)
    requires |s| < TWO_32
    ensures DecCounted(Word(|s|) + Opaque(s) + rest) == Got(s, rest)
  {
    assert Word(|s|) + Opaque(s) + rest == Word(|s|) + (Opaque(s) + rest);
    WordFirst(|s|, Opaque(s) + rest);
    OpaqueFirst(s, rest);
  }

  lemma PrimRoundTrip(p: Prim, v: Val, rest: seq<byte>)
    requires Fits(p, v) && Enc(p, v).Bytes?
    ensures Dec(p, Enc(p, v).s + rest) == Got(v, rest)
  {
    match p
    case PInt => WordFirst(OfInt(v.i), rest);
    case PBool => WordFirst(if v.b then 1 else 0, rest);
    case PULong => WordFirst(v.n, rest);
    case POpaque(n) => OpaqueFirst(v.s, rest);
    case PString =>
      var t := Word(|v.s|) + Opaque(v.s) + rest;
      CountedFirst(v.s, rest);
      CStringWhole(v.s);
      assert t[..4] == Word(|v.s|);
      WordRoundTrip(|v.s|);
    case PBytes => CountedFirst(v.s, rest);
  }

  lemma {:induction false} RowRoundTrip(ps: seq<Prim>, vs: seq<Val>, rest: seq<byte>)
    requires RowFits(ps, vs) && EncRow(ps, vs).Bytes?
    ensures DecRow(ps, EncRow(ps, vs).s + rest) == Got(vs, rest)
  {
    if ps != [] {
      var a, b := Enc(ps[0], vs[0]).s, EncRow(ps[1..], vs[1..]).s;
      assert a + b + rest == a + (b + rest);
      assert EncRow(ps, vs).s == a + b && [vs[0]] + vs[1..] == vs;
      PrimRoundTrip(ps[0], vs[0], b + rest);
      RowRoundTrip(ps[1..], vs[1..], rest);
    }
  }

  lemma RowsJoin(elem: seq<Prim>, c: nat, t: seq<byte>, row: seq<Val>, u: seq<byte>, rows: seq<seq<Val>>,
      rest: seq<byte>)
    requires c > 0 && DecRow(elem, t) == Got(row, u) && DecRows(elem, c - 1, u) == Got(rows, rest)
    ensures DecRows(elem, c, t) == Got([row] + rows, rest)
  {
  }

  /** One more row in front of rows that are already known to come back. */
  lemma RowsStep(elem: seq<Prim>, c: nat, row: seq<Val>, t: seq<byte>, rows: seq<seq<Val>>, rest: seq<byte>)
    requires RowFits(elem, row) && EncRow(elem, row).Bytes?
    requires DecRows(elem, c, t) == Got(rows, rest)
    ensures DecRows(elem, c + 1, EncRow(elem, row).s + t) == Got([row] + rows, rest)
  {
    var s := EncRow(elem, row).s + t;
    assert DecRow(elem, s) == Got(row, t) by { RowRoundTrip(elem, row, t); }
    RowsJoin(elem, c + 1, s, row, t, rows, rest);
  }

  lemma {:induction false} RowsRoundTrip(elem: seq<Prim>, rows: seq<seq<Val>>, rest: seq<byte>)
    requires forall i :: 0 <= i < |rows| ==> RowFits(elem, rows[i])
    requires EncRows(elem, rows).Bytes?
    ensures DecRows(elem, |rows|, EncRows(elem, rows).s + rest) == Got(rows, rest)
  {
    if rows != [] {
      var row, more := rows[0], rows[1..];
      var a, b := EncRow(elem, row).s, EncRows(elem, more).s;
      assert [row] + more == rows && EncRows(elem, rows).s == a + b;
      assert DecRows(elem, |more|, b + rest) == Got(more, rest) by { RowsRoundTrip(elem, more, rest); }
      assert DecRows(elem, |more| + 1, a + (b + rest)) == Got([row] + more, rest) by {
        RowsStep(elem, |more|, row, b + rest, more, rest);
      }
      assert a + b + rest == a + (b + rest);
    }
  }

  lemma FieldRoundTrip(f: Field, v: FieldVal, rest: seq<byte>)
    requires FieldFits(f, v) && EncField(f, v).Bytes?
    ensures DecField(f, EncField(f, v).s + rest) == Got(v, rest)
  {
    match f
    case F(p) => PrimRoundTrip(p, v.v, rest);
    case A(elem, elsize) =>
      var b := EncRows(elem, v.rows).s;
      assert Word(|v.rows|) + b + rest == Word(|v.rows|) + (b + rest);
      WordFirst(|v.rows|, b + rest);
      RowsRoundTrip(elem, v.rows, rest);
  }

  /** Every message that can be encoded is decoded to itself, and what follows it is left.
      With the formats above this is the round trip of each message type. */
  lemma {:induction false} MessageRoundTrip(fs: seq<Field>, vs: seq<FieldVal>, rest: seq<byte>)
    requires MsgFits(fs, vs) && EncMsg(fs, vs).Bytes?
    ensures DecMsg(fs, EncMsg(fs, vs).s + rest) == Got(vs, rest)
  {
    if fs != [] {
      var a, b := EncField(fs[0], vs[0]).s, EncMsg(fs[1..], vs[1..]).s;
      assert a + b + rest == a + (b + rest);
      assert EncMsg(fs, vs).s == a + b && [vs[0]] + vs[1..] == vs;
      FieldRoundTrip(fs[0], vs[0], b + rest);
      MessageRoundTrip(fs[1..], vs[1..], rest);
    }
  }

  // ----- which messages are encoded, and what decoding yields -----

  predicate Encodable(p: Prim, v: Val)
    requires Fits(p, v)
  {
    match p
    case PULong => v.n < TWO_32
    case PString => |v.s| + 1 < TWO_32
    case _ => true
  }

  predicate RowEncodable(ps: seq<Prim>, vs: seq<Val>)
    requires RowFits(ps, vs)
  {
    forall i :: 0 <= i < |ps| ==> Encodable(ps[i], vs[i])
  }

  predicate FieldEncodable(f: Field, v: FieldVal)
    requires FieldFits(f, v)
  {
    match f
    case F(p) => Encodable(p, v.v)
    case A(elem, elsize) => CountOk(|v.rows|, elsize) && forall i :: 0 <= i < |v.rows| ==> RowEncodable(elem, v.rows[i])
  }

  lemma {:induction false} RowEncodes(ps: seq<Prim>, vs: seq<Val>)
    requires RowFits(ps, vs)
    ensures EncRow(ps, vs).Bytes? <==> RowEncodable(ps, vs)
  {
    if ps != [] {
      RowEncodes(ps[1..], vs[1..]);
      if RowEncodable(ps, vs) {
        assert Encodable(ps[0], vs[0]);
        assert forall i :: 0 <= i < |ps| - 1 ==> Encodable(ps[1..][i], vs[1..][i]);
      } else {
        var i :| 0 <= i < |ps| && !Encodable(ps[i], vs[i]);
        if i > 0 { assert !Encodable(ps[1..][i - 1], vs[1..][i - 1]); }
      }
    }
  }

  lemma {:induction false} RowsEncode(elem: seq<Prim>, rows: seq<seq<Val>>)
    requires forall i :: 0 <= i < |rows| ==> RowFits(elem, rows[i])
    ensures EncRows(elem, rows).Bytes? <==> forall i :: 0 <= i < |rows| ==> RowEncodable(elem, rows[i])
  {
    if rows != [] {
      RowEncodes(elem, rows[0]);
      RowsEncode(elem, rows[1..]);
    }
  }

  /** A message is encoded exactly if its unsigned longs fit in 32 bits and its strings and
      arrays are not too long. */
  lemma {:induction false} MessageEncodes(fs: seq<Field>, vs: seq<FieldVal>)
    requires MsgFits(fs, vs)
    ensures EncMsg(fs, vs).Bytes? <==> forall i :: 0 <= i < |fs| ==> FieldEncodable(fs[i], vs[i])
  {
    if fs != [] {
      if fs[0].A? { RowsEncode(fs[0].elem, vs[0].rows); }
      assert EncField(fs[0], vs[0]).Bytes? <==> FieldEncodable(fs[0], vs[0]);
      MessageEncodes(fs[1..], vs[1..]);
    }
  }

  lemma {:induction false} CStringNoNul(s: seq<byte>)
    ensures NoNul(CString(s)) && |CString(s)| <= |s|
  {
    if s != [] && s[0] != 0 { CStringNoNul(s[1..]); }
  }

  lemma PrimDecoded(p: Prim, s: seq<byte>)
    requires Dec(p, s).Got?
    ensures Fits(p, Dec(p, s).v) && Encodable(p, Dec(p, s).v)
  {
    if p.PString? { CStringNoNul(DecCounted(s).v); }
  }

  lemma {:induction false} RowDecoded(ps: seq<Prim>, s: seq<byte>)
    requires DecRow(ps, s).Got?
    ensures RowFits(ps, DecRow(ps, s).v) && RowEncodable(ps, DecRow(ps, s).v)
  {
    if ps != [] {
      PrimDecoded(ps[0], s);
      RowDecoded(ps[1..], Dec(ps[0], s).rest);
    }
  }

  lemma {:induction false} RowsDecoded(elem: seq<Prim>, c: nat, s: seq<byte>)
    requires DecRows(elem, c, s).Got?
    ensures var rows := DecRows(elem, c, s).v;
      |rows| == c && forall i :: 0 <= i < c ==> RowFits(elem, rows[i]) && RowEncodable(elem, rows[i])
  {
    if c > 0 {
      RowDecoded(elem, s);
      RowsDecoded(elem, c - 1, DecRow(elem, s).rest);
    }
  }

  lemma FieldDecoded(f: Field, s: seq<byte>)
    requires DecField(f, s).Got?
    ensures FieldFits(f, DecField(f, s).v) && FieldEncodable(f, DecField(f, s).v)
  {
    match f
    case F(p) => PrimDecoded(p, s);
    case A(elem, elsize) => RowsDecoded(elem, DecWord(s).v, DecWord(s).rest);
  }

  /** Whatever is decoded can be encoded again: from any input, valid or not, the decoder
      fails or yields a message that survives another round trip. */
  lemma {:induction false} MessageDecoded(fs: seq<Field>, s: seq<byte>)
    requires DecMsg(fs, s).Got?
    ensures MsgFits(fs, DecMsg(fs, s).v) && EncMsg(fs, DecMsg(fs, s).v).Bytes?
  {
    if fs != [] {
      FieldDecoded(fs[0], s);
      var f, v := fs[0], DecField(fs[0], s).v;
      if f.A? { RowsEncode(f.elem, v.rows); }
      MessageDecoded(fs[1..], DecField(fs[0], s).rest);
    }
  }

  // ----- the message types -----

  /** The format of a message of each type */
  function Format(type_: int): seq<Field>
    requires 1 <= type_ <= 10
  {
    match type_
    case 1 => BOOTSTRAP
    case 2 => CONNECT
    case 3 => CONSENSUS
    case 4 => CONTROL
    case 5 => DATA
    case 6 => RESP_BOOTSTRAP
    case 7 => RESP_CONNECT
    case 8 => RESP_CONSENSUS
    case 9 => RESP_CONTROL
    case 10 => RESP_DATA
  }

  lemma EncFirst(fs: seq<Field>, vs: seq<FieldVal>, type_: int)
    requires fs != [] && fs[0] == F(PInt) && MsgFits(fs, vs) && vs[0] == FV(VInt(type_)) && 0 <= type_ < 256
    requires EncMsg(fs, vs).Bytes?
    ensures EncMsg(fs, vs).s[..4] == [0, 0, 0, type_]
  {
    WordRoundTrip(type_);
    assert EncMsg(fs, vs) == Then(Bytes(Word(type_)), EncMsg(fs[1..], vs[1..]));
  }

  /** Every message begins with its type, by which the receiver chooses the filter that gives
      back the message. */
  lemma TypeComesFirst(type_: int, vs: seq<FieldVal>, rest: seq<byte>)
    requires 1 <= type_ <= 10 && MsgFits(Format(type_), vs) && vs[0] == FV(VInt(type_))
    requires EncMsg(Format(type_), vs).Bytes?
    ensures |EncMsg(Format(type_), vs).s| >= 4 && UnWord((EncMsg(Format(type_), vs).s + rest)[..4]) == type_
    ensures DecMsg(Format(type_), EncMsg(Format(type_), vs).s + rest) == Got(vs, rest)
  {
    assert Format(type_)[0] == F(PInt);
    EncFirst(Format(type_), vs, type_);
    var s := EncMsg(Format(type_), vs).s;
    assert (s + rest)[..4] == s[..4];
    MessageRoundTrip(Format(type_), vs, rest);
  }

  predicate Fixed(f: Field) {
    f.F? && (f.p.PInt? || f.p.PBool? || f.p.POpaque?)
  }

  function Size(fs: seq<Field>): nat
    requires forall i :: 0 <= i < |fs| ==> Fixed(fs[i])
  {
    if fs == [] then 0
    else
      var f := fs[0];
      assert Fixed(f);
      (if f.p.POpaque? then f.p.n + Pad(f.p.n) else 4) + Size(fs[1..])
  }

  /** Fields of fixed size are never refused. */
  lemma {:induction false} FixedEncodes(fs: seq<Field>, vs: seq<FieldVal>)
    requires MsgFits(fs, vs) && forall i :: 0 <= i < |fs| ==> Fixed(fs[i])
    ensures EncMsg(fs, vs).Bytes? && |EncMsg(fs, vs).s| == Size(fs)
  {
    if fs != [] { FixedEncodes(fs[1..], vs[1..]); }
  }

  /** The messages of fixed size, in bytes */
  lemma FixedMessages(type_: int, vs: seq<FieldVal>)
    requires type_ in {2, 4, 7, 9, 10} && MsgFits(Format(type_), vs)
    ensures EncMsg(Format(type_), vs).Bytes?
    ensures |EncMsg(Format(type_), vs).s| ==
      match type_ case 2 => 12 case 4 => 24 case 7 => 12 case 9 => 8 case 10 => 8
  {
    FixedEncodes(Format(type_), vs);
    Sizes();
  }

  lemma Sizes()
    ensures Size([F(PInt), F(POpaque(4)), F(POpaque(4))]) == 12 && Size([F(PInt), F(POpaque(4)), F(PBool)]) == 12
    ensures Size([F(PInt), F(PInt), F(POpaque(16))]) == 24 && Size([F(PInt), F(PBool)]) == 8
  {
    assert [F(PInt), F(PBool)][1..] == [F(PBool)];
    assert [F(PInt), F(POpaque(4)), F(PBool)][1..] == [F(POpaque(4)), F(PBool)];
    assert [F(PInt), F(POpaque(4)), F(POpaque(4))][1..] == [F(POpaque(4)), F(POpaque(4))];
    assert [F(PInt), F(PInt), F(POpaque(16))][1..] == [F(PInt), F(POpaque(16))];
  }

  // When the other messages are refused; XdrStream has the consensus message.

  lemma BootstrapEncodes(vs: seq<FieldVal>)
    requires MsgFits(BOOTSTRAP, vs)
    ensures FieldFits(BOOTSTRAP[3], vs[3])
    ensures EncMsg(BOOTSTRAP, vs).Bytes? <==> |vs[3].v.s| + 1 < TWO_32
  {
    MessageEncodes(BOOTSTRAP, vs);
    assert forall i :: 0 <= i < 4 ==> FieldFits(BOOTSTRAP[i], vs[i]) && (i < 3 ==> FieldEncodable(BOOTSTRAP[i], vs[i]));
  }

  lemma RespBootstrapEncodes(vs: seq<FieldVal>)
    requires MsgFits(RESP_BOOTSTRAP, vs)
    ensures FieldFits(RESP_BOOTSTRAP[2], vs[2])
    ensures forall i :: 0 <= i < |vs[2].rows| ==> RowFits(REPLICA_INFO, vs[2].rows[i])
    ensures EncMsg(RESP_BOOTSTRAP, vs).Bytes? <==>
      |vs[2].rows| <= 0xFFFF_FFFF / 32 && forall i :: 0 <= i < |vs[2].rows| ==> AddressFits(vs[2].rows[i])
  {
    var fs := RESP_BOOTSTRAP;
    MessageEncodes(fs, vs);
    assert forall i :: 0 <= i < 3 ==> FieldFits(fs[i], vs[i]) && (i < 2 ==> FieldEncodable(fs[i], vs[i]));
    forall i | 0 <= i < |vs[2].rows| ensures RowEncodable(REPLICA_INFO, vs[2].rows[i]) <==> AddressFits(vs[2].rows[i]) {
      var row := vs[2].rows[i];
      assert RowFits(REPLICA_INFO, row);
      assert forall k :: 0 <= k < 3 ==> Fits(REPLICA_INFO[k], row[k]) && (k < 2 ==> Encodable(REPLICA_INFO[k], row[k]));
      assert Encodable(REPLICA_INFO[2], row[2]) <==> AddressFits(row);
    }
  }

  /** The address of a replica and its NUL can be counted. */
  predicate AddressFits(row: seq<Val>)
    requires RowFits(REPLICA_INFO, row)
  {
    assert Fits(REPLICA_INFO[2], row[2]);
    |row[2].s| + 1 < TWO_32
  }

  lemma RespConsensusEncodes(vs: seq<FieldVal>)
    requires MsgFits(RESP_CONSENSUS, vs)
    ensures FieldFits(RESP_CONSENSUS[1], vs[1])
    ensures EncMsg(RESP_CONSENSUS, vs).Bytes? <==> vs[1].v.n < TWO_32
  {
    var fs := RESP_CONSENSUS;
    MessageEncodes(fs, vs);
    assert forall i :: 0 <= i < 3 ==> FieldFits(fs[i], vs[i]) && (i != 1 ==> FieldEncodable(fs[i], vs[i]));
  }

  lemma DataEncodes(vs: seq<FieldVal>)
    requires MsgFits(DATA, vs)
    ensures FieldFits(DATA[3], vs[3])
    ensures EncMsg(DATA, vs).Bytes? <==> |vs[3].rows| <= 0xFFFF_FFFF / 24
  {
    MessageEncodes(DATA, vs);
    assert forall i :: 0 <= i < 4 ==> FieldFits(DATA[i], vs[i]) && (i < 3 ==> FieldEncodable(DATA[i], vs[i]));
    assert forall i :: 0 <= i < |vs[3].rows| ==> RowEncodable(DATA_OP, vs[3].rows[i]);
  }
}
