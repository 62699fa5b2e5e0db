/** The bytes on the wire (RFC 4506), stated without the filters: numbers, flags, padding,
    and one message of each type; and what a filter makes of any bytes. */
module XdrWire {
  import opened XdrModel

  /** Four bytes, most significant first (section 4.1) */
  predicate BigEndian(s: seq<byte>, w: int) {
    && |s| == 4 && 0 <= w < TWO_32
    && s[0] == w / 0x100_0000 && s[1] == w / 0x1_0000 % 0x100 && s[2] == w / 0x100 % 0x100 && s[3] == w % 0x100
  }

  lemma WordBytes(w: int)
    requires 0 <= w < TWO_32
    ensures BigEndian(Word(w), w)
  {
    assert w / 256 / 256 == w / 0x1_0000 && w / 0x1_0000 / 256 == w / 0x100_0000;
  }

  lemma UnWordBytes(s: seq<byte>)
    requires |s| == 4
    ensures BigEndian(s, UnWord(s))
  {
    var a, b, c, d := s[0] as int, s[1] as int, s[2] as int, s[3] as int;
    var w := UnWord(s);
    assert w == a * 0x100_0000 + b * 0x1_0000 + c * 0x100 + d;
    assert w / 0x100_0000 == a && w / 0x1_0000 == a * 0x100 + b && w / 0x100 == a * 0x1_0000 + b * 0x100 + c;
  }

  /** `t` is `s` and as many zero bytes as make the length a multiple of four (section 4.9). */
  predicate Padded(s: seq<byte>, t: seq<byte>) {
    && |s| <= |t| < |s| + 4 && |t| % 4 == 0 && t[..|s|] == s
    && forall i :: |s| <= i < |t| ==> t[i] == 0
  }

  lemma OpaqueBytes(s: seq<byte>)
    ensures Padded(s, Opaque(s))
  {
    assert Opaque(s)[..|s|] == s;
  }

  /** Number of bytes that `n` bytes take with their padding */
  function RoundUp(n: nat): nat {
    (n + 3) / 4 * 4
  }

  lemma PadIs(n: nat)
    ensures n + Pad(n) == RoundUp(n)
  {
  }

  /** Length and padded bytes (sections 4.10 and 4.11) */
  predicate Counted(s: seq<byte>, t: seq<byte>) {
    |t| >= 4 && BigEndian(t[..4], |s|) && Padded(s, t[4..])
  }

  lemma CountedBytes(s: seq<byte>)
    requires |s| < TWO_32
    ensures Counted(s, Word(|s|) + Opaque(s))
  {
    var t := Word(|s|) + Opaque(s);
    assert t[..4] == Word(|s|) && t[4..] == Opaque(s);
    WordBytes(|s|);
    OpaqueBytes(s);
  }

  /** What each primitive puts on the wire */
  lemma PrimBytes(p: Prim, v: Val)
    requires Fits(p, v)
    ensures var e := Enc(p, v);
      match p
      case PInt => e.Bytes? && BigEndian(e.s, if v.i < 0 then v.i + TWO_32 else v.i)
      case PBool => e == Bytes(if v.b then [0, 0, 0, 1] else [0, 0, 0, 0])
      case PULong => (e.Bytes? <==> v.n < TWO_32) && (if v.n < TWO_32 then BigEndian(e.s, v.n) else e.s == [])
      case POpaque(n) => e.Bytes? && Padded(v.s, e.s)
      case PString => if |v.s| + 1 < TWO_32 then e.Bytes? && Counted(v.s, e.s) else e.Refused? && BigEndian(e.s, |v.s|)
      case PBytes => e.Bytes? && Counted(v.s, e.s)
  {
    match p
    case PInt => WordBytes(OfInt(v.i));
    case PBool => WordBytes(if v.b then 1 else 0);
    case PULong => if v.n < TWO_32 { WordBytes(v.n); }
    case POpaque(n) => OpaqueBytes(v.s);
    case PString => CountedBytes(v.s); WordBytes(|v.s|);
    case PBytes => CountedBytes(v.s);
  }

  // ----- decoding any bytes -----

  /** A number is read from the first four bytes; any word but zero is true. */
  lemma NumbersRead(s: seq<byte>)
    ensures |s| < 4 ==> Dec(PInt, s) == Dec(PBool, s) == Dec(PULong, s) == Failed
    ensures |s| >= 4 ==>
      && Dec(PBool, s) == Got(VBool(s[..4] != [0, 0, 0, 0]), s[4..])
      && Dec(PULong, s).Got? && Dec(PULong, s).v.VULong? && Dec(PULong, s).rest == s[4..]
      && BigEndian(s[..4], Dec(PULong, s).v.n)
      && Dec(PInt, s).Got? && Dec(PInt, s).v.VInt? && Dec(PInt, s).rest == s[4..]
      && var i := Dec(PInt, s).v.i;
         -TWO_31 <= i < TWO_31 && BigEndian(s[..4], if i < 0 then i + TWO_32 else i)
  {
    if |s| >= 4 { UnWordBytes(s[..4]); }
  }

  /** Fixed opaque data is read up to its padding, whatever the padding is. */
  lemma OpaqueReads(s: seq<byte>, n: nat)
    ensures Dec(POpaque(n), s) == if |s| < RoundUp(n) then Failed else Got(VBytes(s[..n]), s[RoundUp(n)..])
  {
    PadIs(n);
  }

  /** Counted bytes are read if there are as many as the count says, padded. */
  lemma BytesRead(s: seq<byte>)
    ensures |s| < 4 ==> Dec(PBytes, s) == Failed
    ensures |s| >= 4 ==>
      var n := UnWord(s[..4]);
      && BigEndian(s[..4], n)
      && Dec(PBytes, s) == if |s| < 4 + RoundUp(n) then Failed else Got(VBytes(s[4..4 + n]), s[4 + RoundUp(n)..])
  {
    if |s| >= 4 {
      var n := UnWord(s[..4]);
      UnWordBytes(s[..4]);
      PadIs(n);
      if |s| >= 4 + RoundUp(n) {
        assert s[4..][..n] == s[4..4 + n];
        assert s[4..][RoundUp(n)..] == s[4 + RoundUp(n)..];
      }
    }
  }

  /** A string is counted bytes up to the first NUL; the largest count is refused. */
  lemma StringReads(s: seq<byte>)
    ensures |s| < 4 ==> Dec(PString, s) == Failed
    ensures |s| >= 4 ==>
      match Dec(PBytes, s)
      case Failed => Dec(PString, s) == Failed
      case Got(v, rest) =>
        if UnWord(s[..4]) == TWO_32 - 1 then Dec(PString, s) == Failed
        else Dec(PString, s) == Got(VBytes(CString(v.s)), rest)
  {
  }

  lemma {:induction false} CStringEnds(s: seq<byte>)
    ensures CString(s) <= s && NoNul(CString(s)) && (|CString(s)| < |s| ==> s[|CString(s)|] == 0)
  {
    if s != [] && s[0] != 0 { CStringEnds(s[1..]); }
  }

  // ----- messages, field by field -----

  lemma MsgCons(f: Field, fs: seq<Field>, v: FieldVal, vs: seq<FieldVal>)
    requires FieldFits(f, v) && MsgFits(fs, vs)
    ensures MsgFits([f] + fs, [v] + vs) && EncMsg([f] + fs, [v] + vs) == Then(EncField(f, v), EncMsg(fs, vs))
  {
    assert ([f] + fs)[1..] == fs && ([v] + vs)[1..] == vs;
  }

  lemma Msg1(f: Field, v: FieldVal)
    requires FieldFits(f, v)
    ensures MsgFits([f], [v]) && (EncField(f, v).Bytes? ==> EncMsg([f], [v]) == EncField(f, v))
  {
    MsgCons(f, [], v, []);
    assert [f] + [] == [f] && [v] + [] == [v];
  }

  lemma Msg2(f: Field, g: Field, v: FieldVal, w: FieldVal)
    requires FieldFits(f, v) && FieldFits(g, w) && EncField(f, v).Bytes? && EncField(g, w).Bytes?
    ensures MsgFits([f, g], [v, w]) && EncMsg([f, g], [v, w]) == Bytes(EncField(f, v).s + EncField(g, w).s)
  {
    Msg1(g, w);
    MsgCons(f, [g], v, [w]);
    assert [f] + [g] == [f, g] && [v] + [w] == [v, w];
  }

  lemma Msg3(f: Field, g: Field, h: Field, v: FieldVal, w: FieldVal, x: FieldVal)
    requires FieldFits(f, v) && FieldFits(g, w) && FieldFits(h, x)
    requires EncField(f, v).Bytes? && EncField(g, w).Bytes? && EncField(h, x).Bytes?
    ensures MsgFits([f, g, h], [v, w, x])
    ensures EncMsg([f, g, h], [v, w, x]) == Bytes(EncField(f, v).s + EncField(g, w).s + EncField(h, x).s)
  {
    Msg2(g, h, w, x);
    MsgCons(f, [g, h], v, [w, x]);
    assert [f] + [g, h] == [f, g, h] && [v] + [w, x] == [v, w, x];
    assert EncField(f, v).s + (EncField(g, w).s + EncField(h, x).s)
      == EncField(f, v).s + EncField(g, w).s + EncField(h, x).s;
  }

  lemma Msg4(f: Field, g: Field, h: Field, k: Field, v: FieldVal, w: FieldVal, x: FieldVal, y: FieldVal)
    requires FieldFits(f, v) && FieldFits(g, w) && FieldFits(h, x) && FieldFits(k, y)
    requires EncField(f, v).Bytes? && EncField(g, w).Bytes? && EncField(h, x).Bytes? && EncField(k, y).Bytes?
    ensures MsgFits([f, g, h, k], [v, w, x, y])
    ensures EncMsg([f, g, h, k], [v, w, x, y])
      == Bytes(EncField(f, v).s + EncField(g, w).s + EncField(h, x).s + EncField(k, y).s)
  {
    Msg3(g, h, k, w, x, y);
    MsgCons(f, [g, h, k], v, [w, x, y]);
    assert [f] + [g, h, k] == [f, g, h, k] && [v] + [w, x, y] == [v, w, x, y];
    assert EncField(f, v).s + (EncField(g, w).s + EncField(h, x).s + EncField(k, y).s)
      == EncField(f, v).s + EncField(g, w).s + EncField(h, x).s + EncField(k, y).s;
  }

  // An int of C, 16 bytes, and counted bytes on the wire

  predicate IsInt(i: int) {
    -TWO_31 <= i < TWO_31
  }

  function Int(i: int): seq<byte>
    requires IsInt(i)
  {
    Word(if i < 0 then i + TWO_32 else i)
  }

  function Flag(b: bool): seq<byte> {
    if b then [0, 0, 0, 1] else [0, 0, 0, 0]
  }

  function Text(s: seq<byte>): seq<byte>
    requires |s| < TWO_32
  {
    Word(|s|) + s + Zeros(Pad(|s|))
  }

  lemma Small(w: int)
    requires 0 <= w < 256
    ensures Word(w) == [0, 0, 0, w]
  {
    WordRoundTrip(w);
  }

  lemma NoPadding(s: seq<byte>)
    requires |s| % 4 == 0
    ensures Opaque(s) == s
  {
  }

  /** Who asks to be let in: its uuid, its port and its address, in this order */
  lemma BootstrapBytes(uuid: seq<byte>, port: int, address: seq<byte>)
    requires |uuid| == 16 && IsInt(port) && NoNul(address) && |address| + 1 < TWO_32
    ensures var vs := [FV(VInt(1)), FV(VBytes(uuid)), FV(VInt(port)), FV(VBytes(address))];
      MsgFits(Format(1), vs)
      && EncMsg(Format(1), vs) == Bytes([0, 0, 0, 1] + uuid + Int(port) +
        (Word(|address|) + address + Zeros(Pad(|address|))))
  {
    Msg4(F(PInt), F(UUID), F(PInt), F(PString), FV(VInt(1)), FV(VBytes(uuid)), FV(VInt(port)), FV(VBytes(address)));
    Small(1);
    NoPadding(uuid);
    assert Word(|address|) + Opaque(address) == Word(|address|) + address + Zeros(Pad(|address|));
  }

  /** A magic number of four bytes and the version of the interface */
  lemma ConnectBytes(magic: seq<byte>, version: seq<byte>)
    requires |magic| == |version| == 4
    ensures var vs := [FV(VInt(2)), FV(VBytes(magic)), FV(VBytes(version))];
      MsgFits(Format(2), vs) && EncMsg(Format(2), vs) == Bytes([0, 0, 0, 2] + magic + version)
  {
    Msg3(F(PInt), F(POpaque(4)), F(POpaque(4)), FV(VInt(2)), FV(VBytes(magic)), FV(VBytes(version)));
    Small(2);
    NoPadding(magic);
    NoPadding(version);
  }

  /** An action and a uuid */
  lemma ControlBytes(action: int, uuid: seq<byte>)
    requires IsInt(action) && |uuid| == 16
    ensures var vs := [FV(VInt(4)), FV(VInt(action)), FV(VBytes(uuid))];
      MsgFits(Format(4), vs) && EncMsg(Format(4), vs) == Bytes([0, 0, 0, 4] + Int(action) + uuid)
  {
    Msg3(F(PInt), F(PInt), F(UUID), FV(VInt(4)), FV(VInt(action)), FV(VBytes(uuid)));
    Small(4);
    NoPadding(uuid);
  }

  /** The answer to a connection: the version of the interface and a flag */
  lemma RespConnectBytes(version: seq<byte>, success: bool)
    requires |version| == 4
    ensures var vs := [FV(VInt(7)), FV(VBytes(version)), FV(VBool(success))];
      MsgFits(Format(7), vs) && EncMsg(Format(7), vs) == Bytes([0, 0, 0, 7] + version + Flag(success))
  {
    Msg3(F(PInt), F(POpaque(4)), F(PBool), FV(VInt(7)), FV(VBytes(version)), FV(VBool(success)));
    Small(7);
    Small(if success then 1 else 0);
    NoPadding(version);
  }

  /** The answer to a consensus message: the term and a flag */
  lemma RespConsensusBytes(term: nat, success: bool)
    requires term < TWO_32
    ensures var vs := [FV(VInt(8)), FV(VULong(term)), FV(VBool(success))];
      MsgFits(Format(8), vs) && EncMsg(Format(8), vs) == Bytes([0, 0, 0, 8] + Word(term) + Flag(success))
  {
    Msg3(F(PInt), F(PULong), F(PBool), FV(VInt(8)), FV(VULong(term)), FV(VBool(success)));
    Small(8);
    Small(if success then 1 else 0);
  }

  /** The other answers are a flag. */
  lemma FlagBytes(type_: int, success: bool)
    requires type_ == 9 || type_ == 10
    ensures var vs := [FV(VInt(type_)), FV(VBool(success))];
      MsgFits(Format(type_), vs) && EncMsg(Format(type_), vs) == Bytes([0, 0, 0, type_] + Flag(success))
  {
    Msg2(F(PInt), F(PBool), FV(VInt(type_)), FV(VBool(success)));
    Small(type_);
    Small(if success then 1 else 0);
  }

  // ----- messages with arrays -----

  lemma Row1(p: Prim, v: Val)
    requires Fits(p, v) && Enc(p, v).Bytes?
    ensures RowFits([p], [v]) && EncRow([p], [v]) == Enc(p, v)
  {
    assert EncRow([p][1..], [v][1..]) == Bytes([]);
    assert Enc(p, v).s + [] == Enc(p, v).s;
  }

  lemma Row2(p: Prim, q: Prim, v: Val, w: Val)
    requires Fits(p, v) && Fits(q, w) && Enc(p, v).Bytes? && Enc(q, w).Bytes?
    ensures RowFits([p, q], [v, w]) && EncRow([p, q], [v, w]) == Bytes(Enc(p, v).s + Enc(q, w).s)
  {
    Row1(q, w);
    assert [p, q][1..] == [q] && [v, w][1..] == [w];
  }

  lemma Row3(p: Prim, q: Prim, r: Prim, v: Val, w: Val, x: Val)
    requires Fits(p, v) && Fits(q, w) && Fits(r, x) && Enc(p, v).Bytes? && Enc(q, w).Bytes? && Enc(r, x).Bytes?
    ensures RowFits([p, q, r], [v, w, x])
    ensures EncRow([p, q, r], [v, w, x]) == Bytes(Enc(p, v).s + Enc(q, w).s + Enc(r, x).s)
  {
    Row2(q, r, w, x);
    assert [p, q, r][1..] == [q, r] && [v, w, x][1..] == [w, x];
    assert Enc(p, v).s + (Enc(q, w).s + Enc(r, x).s) == Enc(p, v).s + Enc(q, w).s + Enc(r, x).s;
  }

  lemma OneRow(elem: seq<Prim>, elsize: nat, row: seq<Val>)
    requires RowFits(elem, row) && EncRow(elem, row).Bytes? && CountOk(1, elsize)
    ensures FieldFits(A(elem, elsize), AV([row]))
    ensures EncField(A(elem, elsize), AV([row])) == Bytes([0, 0, 0, 1] + EncRow(elem, row).s)
  {
    Small(1);
    var rows := [row];
    assert EncRows(elem, rows[1..]) == Bytes([]);
    assert EncRow(elem, row).s + [] == EncRow(elem, row).s;
    assert EncRows(elem, rows) == EncRow(elem, row);
  }

  lemma ReplicaRow(uuid: seq<byte>, port: int, address: seq<byte>)
    requires |uuid| == 16 && IsInt(port) && NoNul(address) && |address| + 1 < TWO_32
    ensures var row := [VBytes(uuid), VInt(port), VBytes(address)];
      RowFits(REPLICA_INFO, row) && EncRow(REPLICA_INFO, row) == Bytes(uuid + Int(port) + Text(address))
  {
    Row3(UUID, PInt, PString, VBytes(uuid), VInt(port), VBytes(address));
    NoPadding(uuid);
    assert Word(|address|) + Opaque(address) == Text(address);
    assert Enc(PString, VBytes(address)).s == Text(address);
    assert Enc(UUID, VBytes(uuid)).s == uuid && Enc(PInt, VInt(port)).s == Int(port);
  }

  /** The answer to a bootstrap message with one known replica: its uuid, port and address */
  lemma RespBootstrapBytes(success: bool, uuid: seq<byte>, port: int, address: seq<byte>)
    requires |uuid| == 16 && IsInt(port) && NoNul(address) && |address| + 1 < TWO_32
    ensures var vs := [FV(VInt(6)), FV(VBool(success)), AV([[VBytes(uuid), VInt(port), VBytes(address)]])];
      MsgFits(Format(6), vs)
      && EncMsg(Format(6), vs) == Bytes([0, 0, 0, 6] + Flag(success) +
        ([0, 0, 0, 1] + (uuid + Int(port) + Text(address))))
  {
    ReplicaRow(uuid, port, address);
    var row := [VBytes(uuid), VInt(port), VBytes(address)];
    OneRow(REPLICA_INFO, REPLICA_INFO_SIZE, row);
    Msg3(F(PInt), F(PBool), A(REPLICA_INFO, REPLICA_INFO_SIZE), FV(VInt(6)), FV(VBool(success)), AV([row]));
    Small(6);
    Small(if success then 1 else 0);
  }

  /** Data with one operation: the mode, the transaction, the verb of the operation and its text */
  lemma DataBytes(mode: int, transaction: int, verb: int, text: seq<byte>)
    requires IsInt(mode) && IsInt(transaction) && IsInt(verb) && |text| < TWO_32
    ensures var vs := [FV(VInt(5)), FV(VInt(mode)), FV(VInt(transaction)), AV([[VInt(verb), VBytes(text)]])];
      MsgFits(Format(5), vs)
      && EncMsg(Format(5), vs)
         == Bytes([0, 0, 0, 5] + Int(mode) + Int(transaction) + ([0, 0, 0, 1] + (Int(verb) + Text(text))))
  {
    Row2(PInt, PBytes, VInt(verb), VBytes(text));
    assert Word(|text|) + Opaque(text) == Text(text);
    var row := [VInt(verb), VBytes(text)];
    OneRow(DATA_OP, DATA_OP_SIZE, row);
    Msg4(F(PInt), F(PInt), F(PInt), A(DATA_OP, DATA_OP_SIZE),
         FV(VInt(5)), FV(VInt(mode)), FV(VInt(transaction)), AV([row]));
    Small(5);
  }

  const ULONGS: seq<Field> := [F(PULong), F(PULong), F(PULong), F(PULong), A(LOG_ENTRY, LOG_ENTRY_SIZE)]

  lemma LogBytes(entry: seq<byte>)
    requires |entry| < TWO_32
    ensures var l := AV([[VBytes(entry)]]);
      FieldFits(ULONGS[4], l) && EncField(ULONGS[4], l) == Bytes([0, 0, 0, 1] + Text(entry))
  {
    Row1(PBytes, VBytes(entry));
    assert Word(|entry|) + Opaque(entry) == Text(entry);
    OneRow(LOG_ENTRY, LOG_ENTRY_SIZE, [VBytes(entry)]);
  }

  lemma CountersAndLogBytes(term: nat, index: nat, logTerm: nat, commit: nat, entry: seq<byte>)
    requires |entry| < TWO_32 && term < TWO_32 && index < TWO_32 && logTerm < TWO_32 && commit < TWO_32
    ensures var vs := [FV(VULong(term)), FV(VULong(index)), FV(VULong(logTerm)), FV(VULong(commit)),
      AV([[VBytes(entry)]])];
      MsgFits(ULONGS, vs)
      && EncMsg(ULONGS, vs)
         == Bytes(Word(term) + (Word(index) + Word(logTerm) + Word(commit) + ([0, 0, 0, 1] + Text(entry))))
  {
    LogBytes(entry);
    var log, l, u := A(LOG_ENTRY, LOG_ENTRY_SIZE), AV([[VBytes(entry)]]), F(PULong);
    var a, b, c, d := FV(VULong(term)), FV(VULong(index)), FV(VULong(logTerm)), FV(VULong(commit));
    Msg4(u, u, u, log, b, c, d, l);
    MsgCons(u, [u, u, u, log], a, [b, c, d, l]);
    assert [u] + [u, u, u, log] == ULONGS && [a] + [b, c, d, l] == [a, b, c, d, l];
  }

  lemma HeadThen(vote: bool, uuid: seq<byte>, vs: seq<FieldVal>, s: seq<byte>)
    requires |uuid| == 16 && MsgFits(ULONGS, vs) && EncMsg(ULONGS, vs) == Bytes(s)
    ensures var fs, ws := [F(PInt)] + ([F(PBool)] + ([F(UUID)] + ULONGS)),
      [FV(VInt(3))] + ([FV(VBool(vote))] + ([FV(VBytes(uuid))] + vs));
      MsgFits(fs, ws) && EncMsg(fs, ws) == Bytes([0, 0, 0, 3] + (Flag(vote) + (uuid + s)))
  {
    NoPadding(uuid);
    MsgCons(F(UUID), ULONGS, FV(VBytes(uuid)), vs);
    MsgCons(F(PBool), [F(UUID)] + ULONGS, FV(VBool(vote)), [FV(VBytes(uuid))] + vs);
    MsgCons(F(PInt), [F(PBool)] + ([F(UUID)] + ULONGS), FV(VInt(3)), [FV(VBool(vote))] + ([FV(VBytes(uuid))] + vs));
    Small(if vote then 1 else 0);
    Small(3);
  }

  /** A consensus message with one log entry: whether it is a vote, the uuid, the term, the
      index and term of the log, the commit index, and the entry */
  lemma ConsensusBytes(vote: bool, uuid: seq<byte>, term: nat, index: nat, logTerm: nat, commit: nat, entry: seq<byte>)
    requires |uuid| == 16 && |entry| < TWO_32
    requires term < TWO_32 && index < TWO_32 && logTerm < TWO_32 && commit < TWO_32
    ensures var vs := [FV(VInt(3)), FV(VBool(vote)), FV(VBytes(uuid)), FV(VULong(term)), FV(VULong(index)),
                       FV(VULong(logTerm)), FV(VULong(commit)), AV([[VBytes(entry)]])];
      MsgFits(Format(3), vs)
      && EncMsg(Format(3), vs)
         == Bytes([0, 0, 0, 3] + (Flag(vote) + (uuid + (Word(term) + (Word(index) + Word(logTerm) + Word(commit)
                  + ([0, 0, 0, 1] + Text(entry)))))))
  {
    CountersAndLogBytes(term, index, logTerm, commit, entry);
    var vs := [FV(VULong(term)), FV(VULong(index)), FV(VULong(logTerm)), FV(VULong(commit)), AV([[VBytes(entry)]])];
    HeadThen(vote, uuid, vs, EncMsg(ULONGS, vs).s);
    assert [F(PInt)] + ([F(PBool)] + ([F(UUID)] + ULONGS)) == CONSENSUS;
    assert [FV(VInt(3))] + ([FV(VBool(vote))] + ([FV(VBytes(uuid))] + vs))
      == [FV(VInt(3)), FV(VBool(vote)), FV(VBytes(uuid)), FV(VULong(term)), FV(VULong(index)),
          FV(VULong(logTerm)), FV(VULong(commit)), AV([[VBytes(entry)]])];
  }

  // ----- refusals -----

  /** A message whose first refused field is field `k`: the fields before it and what that
      field wrote are on the wire, and nothing more. */
  lemma {:induction false} RefusedAt(fs: seq<Field>, vs: seq<FieldVal>, k: nat)
    requires MsgFits(fs, vs) && k < |fs| && EncField(fs[k], vs[k]).Refused?
    requires forall i :: 0 <= i < k ==> EncField(fs[i], vs[i]).Bytes?
    ensures MsgFits(fs[..k], vs[..k]) && EncMsg(fs[..k], vs[..k]).Bytes?
    ensures EncMsg(fs, vs) == Refused(EncMsg(fs[..k], vs[..k]).s + EncField(fs[k], vs[k]).s)
  {
    if k == 0 {
      assert EncMsg(fs[..0], vs[..0]) == Bytes([]);
      assert [] + EncField(fs[0], vs[0]).s == EncField(fs[0], vs[0]).s;
    } else {
      assert fs[1..][..k - 1] == fs[..k][1..] && vs[1..][..k - 1] == vs[..k][1..];
      RefusedAt(fs[1..], vs[1..], k - 1);
      var a, b, c := EncField(fs[0], vs[0]).s, EncMsg(fs[..k][1..], vs[..k][1..]).s, EncField(fs[k], vs[k]).s;
      assert (a + b) + c == a + (b + c);
    }
  }

  /** An array starts with its count, which is all that is written if the count is too large. */
  lemma ArrayBytes(elem: seq<Prim>, elsize: nat, rows: seq<seq<Val>>)
    requires FieldFits(A(elem, elsize), AV(rows))
    ensures var e := EncField(A(elem, elsize), AV(rows));
      |e.s| >= 4 && BigEndian(e.s[..4], |rows|)
      && (CountOk(|rows|, elsize) ==>
            e.s[4..] == EncRows(elem, rows).s && (e.Bytes? <==> EncRows(elem, rows).Bytes?))
      && (!CountOk(|rows|, elsize) ==> e.Refused? && |e.s| == 4)
  {
    WordBytes(|rows|);
    var e, r := EncField(A(elem, elsize), AV(rows)), EncRows(elem, rows);
    if CountOk(|rows|, elsize) {
      assert e.s == Word(|rows|) + r.s;
      assert e.s[..4] == Word(|rows|);
    } else {
      assert e.s[..4] == Word(|rows|);
    }
  }
}
