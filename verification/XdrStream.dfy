/** The filters of proto_xdr.c running on a stream: fields are written and read one after the
    other, and the consensus message has a second, inlined path for its four counters. */
module XdrStream {
  import opened XdrModel

  // ----- splitting a message -----

  lemma {:induction false} EncSplits(fs: seq<Field>, vs: seq<FieldVal>, gs: seq<Field>, ws: seq<FieldVal>)
    requires MsgFits(fs, vs) && MsgFits(gs, ws)
    ensures MsgFits(fs + gs, vs + ws)
    ensures EncMsg(fs + gs, vs + ws) == Then(EncMsg(fs, vs), EncMsg(gs, ws))
  {
    if fs == [] {
      assert fs + gs == gs && vs + ws == ws;
    } else {
      assert (fs + gs)[1..] == fs[1..] + gs && (vs + ws)[1..] == vs[1..] + ws;
      EncSplits(fs[1..], vs[1..], gs, ws);
      ThenAssoc(EncField(fs[0], vs[0]), EncMsg(fs[1..], vs[1..]), EncMsg(gs, ws));
    }
  }

  lemma ThenAssoc(a: Bytes, b: Bytes, c: Bytes)
    ensures Then(Then(a, b), c) == Then(a, Then(b, c))
  {
    assert (a.s + b.s) + c.s == a.s + (b.s + c.s);
  }

  /** One decoder after the other */
  function Both(fs: seq<Field>, gs: seq<Field>, s: seq<byte>): Got<seq<FieldVal>> {
    match DecMsg(fs, s)
    case Failed => Failed
    case Got(vs, rest) =>
      match DecMsg(gs, rest)
      case Failed => Failed
      case Got(ws, rest') => Got(vs + ws, rest')
  }

  lemma {:induction false} DecSplits(fs: seq<Field>, gs: seq<Field>, s: seq<byte>)
    ensures DecMsg(fs + gs, s) == Both(fs, gs, s)
  {
    if fs == [] {
      assert fs + gs == gs;
      if DecMsg(gs, s).Got? { assert [] + DecMsg(gs, s).v == DecMsg(gs, s).v; }
    } else {
      assert (fs + gs)[1..] == fs[1..] + gs;
      var d := DecField(fs[0], s);
      if d.Got? {
        DecSplits(fs[1..], gs, d.rest);
        DecSplitsStep(d.v, fs[1..], gs, d.rest);
      }
    }
  }

  lemma DecSplitsStep(v: FieldVal, fs: seq<Field>, gs: seq<Field>, s: seq<byte>)
    ensures Both(fs, gs, s).Got? ==>
      [v] + Both(fs, gs, s).v == ([v] + DecMsg(fs, s).v) + DecMsg(gs, DecMsg(fs, s).rest).v
  {
  }

  // ----- the consensus message -----

  const HEAD: seq<Field> := [F(PInt), F(PBool), F(UUID)]
  const COUNTERS: seq<Field> := [F(PULong), F(PULong), F(PULong), F(PULong)]
  const ENTRIES: seq<Field> := [A(LOG_ENTRY, LOG_ENTRY_SIZE)]

  lemma ConsensusParts()
    ensures CONSENSUS == HEAD + (COUNTERS + ENTRIES)
  {
  }

  /** The message whose counters have lost their upper halves */
  function Wrap(v: FieldVal): FieldVal
    requires FieldFits(F(PULong), v)
  {
    FV(VULong(v.v.n % TWO_32))
  }

  function Wrapped(vs: seq<FieldVal>): (ws: seq<FieldVal>)
    requires MsgFits(CONSENSUS, vs)
    ensures MsgFits(CONSENSUS, ws)
  {
    assert forall i :: 3 <= i < 7 ==> CONSENSUS[i] == F(PULong);
    vs[..3] + [Wrap(vs[3]), Wrap(vs[4]), Wrap(vs[5]), Wrap(vs[6])] + vs[7..]
  }

  /** What the two paths put on the wire */
  function Chosen(vs: seq<FieldVal>, inlined: bool): (ws: seq<FieldVal>)
    requires MsgFits(CONSENSUS, vs)
    ensures MsgFits(CONSENSUS, ws)
  {
    if inlined then Wrapped(vs) else vs
  }

  predicate Small(vs: seq<FieldVal>)
    requires MsgFits(CONSENSUS, vs)
  {
    forall i :: 3 <= i < 7 ==> CONSENSUS[i] == F(PULong) && FieldFits(CONSENSUS[i], vs[i]) && vs[i].v.n < TWO_32
  }

  lemma WrappedSmall(vs: seq<FieldVal>)
    requires MsgFits(CONSENSUS, vs)
    ensures Small(Wrapped(vs)) && (Wrapped(vs) == vs <==> Small(vs))
  {
    var ws := Wrapped(vs);
    assert forall i :: 3 <= i < 7 ==> ws[i] == Wrap(vs[i]);
    if Small(vs) {
      assert forall i :: 3 <= i < 7 ==> ws[i] == vs[i];
      assert ws == vs;
    } else {
      var i :| 3 <= i < 7 && vs[i].v.n >= TWO_32;
      assert ws[i] != vs[i];
    }
  }

  lemma FieldKinds(vs: seq<FieldVal>)
    requires MsgFits(CONSENSUS, vs)
    ensures MsgFits(HEAD, vs[..3]) && MsgFits(COUNTERS, vs[3..7]) && MsgFits(ENTRIES, vs[7..])
    ensures FieldFits(CONSENSUS[7], vs[7]) && vs[7].AV?
    ensures vs == vs[..3] + (vs[3..7] + vs[7..])
  {
    assert forall i :: 0 <= i < 3 ==> HEAD[i] == CONSENSUS[i] && FieldFits(CONSENSUS[i], vs[i]);
    assert forall i :: 0 <= i < 4 ==> COUNTERS[i] == CONSENSUS[i + 3] && FieldFits(CONSENSUS[i + 3], vs[i + 3]);
    assert ENTRIES[0] == CONSENSUS[7] && FieldFits(CONSENSUS[7], vs[7]);
  }

  lemma PartsEncode(vs: seq<FieldVal>)
    requires MsgFits(CONSENSUS, vs)
    ensures MsgFits(HEAD, vs[..3]) && MsgFits(COUNTERS, vs[3..7]) && MsgFits(ENTRIES, vs[7..])
    ensures EncMsg(CONSENSUS, vs) ==
      Then(EncMsg(HEAD, vs[..3]), Then(EncMsg(COUNTERS, vs[3..7]), EncMsg(ENTRIES, vs[7..])))
  {
    FieldKinds(vs);
    ConsensusParts();
    EncSplits(COUNTERS, vs[3..7], ENTRIES, vs[7..]);
    EncSplits(HEAD, vs[..3], COUNTERS + ENTRIES, vs[3..7] + vs[7..]);
  }

  predicate EntriesOk(vs: seq<FieldVal>)
    requires MsgFits(CONSENSUS, vs)
  {
    assert FieldFits(CONSENSUS[7], vs[7]);
    CountOk(|vs[7].rows|, LOG_ENTRY_SIZE)
  }

  /** A consensus message is encoded exactly if its counters have no upper halves and its log
      entries can be counted. */
  lemma ConsensusEncodes(vs: seq<FieldVal>)
    requires MsgFits(CONSENSUS, vs)
    ensures EncMsg(CONSENSUS, vs).Bytes? <==> Small(vs) && EntriesOk(vs)
    ensures FieldFits(CONSENSUS[7], vs[7]) && (EntriesOk(vs) <==> |vs[7].rows| <= 0xFFFF_FFFF / 16)
  {
    MessageEncodes(CONSENSUS, vs);
    assert |CONSENSUS| == 8;
    assert FieldEncodable(CONSENSUS[7], vs[7]) <==> EntriesOk(vs) by {
      assert forall i :: 0 <= i < |vs[7].rows| ==> RowEncodable(LOG_ENTRY, vs[7].rows[i]);
    }
    assert forall i :: 0 <= i < 3 ==> FieldEncodable(CONSENSUS[i], vs[i]);
    assert forall i :: 3 <= i < 7 ==> (FieldEncodable(CONSENSUS[i], vs[i]) <==> vs[i].v.n < TWO_32);
  }

  /** The counters take four bytes each; a refused one takes none and ends the message. */
  lemma CountersLength(vs: seq<FieldVal>)
    requires MsgFits(COUNTERS, vs)
    ensures var e := EncMsg(COUNTERS, vs); if e.Bytes? then |e.s| == 16 else |e.s| <= 12
  {
    EncTail(COUNTERS, vs, 3);
    EncTail(COUNTERS, vs, 2);
    EncTail(COUNTERS, vs, 1);
    EncTail(COUNTERS, vs, 0);
    assert COUNTERS[0..] == COUNTERS && vs[0..] == vs;
  }

  lemma CountersEncoded(vs: seq<FieldVal>)
    requires MsgFits(CONSENSUS, vs) && MsgFits(COUNTERS, vs[3..7])
    ensures EncMsg(COUNTERS, vs[3..7]).Bytes? <==> Small(vs)
  {
    var cs := vs[3..7];
    MessageEncodes(COUNTERS, cs);
    assert forall i :: 0 <= i < 4 ==> COUNTERS[i] == CONSENSUS[i + 3] == F(PULong) && cs[i] == vs[i + 3];
    if !Small(vs) {
      var i :| 3 <= i < 7 && vs[i].v.n >= TWO_32;
      assert !FieldEncodable(COUNTERS[i - 3], cs[i - 3]);
    }
  }

  lemma HeadEncoded(vs: seq<FieldVal>)
    requires MsgFits(HEAD, vs)
    ensures EncMsg(HEAD, vs).Bytes?
  {
    MessageEncodes(HEAD, vs);
  }

  /** The inlined path does what the slow path does, byte for byte, exactly if no counter has
      an upper half: otherwise the slow path stops at the counter and refuses the message,
      which the inlined path writes cut short. */
  lemma InlineAgrees(vs: seq<FieldVal>)
    requires MsgFits(CONSENSUS, vs)
    ensures EncMsg(CONSENSUS, Wrapped(vs)) == EncMsg(CONSENSUS, vs) <==> Small(vs)
    ensures EncMsg(CONSENSUS, Wrapped(vs)).Bytes? <==> EntriesOk(vs)
    ensures EncMsg(CONSENSUS, vs).Bytes? <==> EntriesOk(vs) && Small(vs)
  {
    WrappedSmall(vs);
    ConsensusEncodes(vs);
    ConsensusEncodes(Wrapped(vs));
    if !Small(vs) { PathsDiffer(vs); }
  }

  lemma PathsDiffer(vs: seq<FieldVal>)
    requires MsgFits(CONSENSUS, vs) && !Small(vs)
    ensures EncMsg(CONSENSUS, Wrapped(vs)) != EncMsg(CONSENSUS, vs)
  {
    var ws := Wrapped(vs);
    WrappedSmall(vs);
    PartsEncode(vs);
    PartsEncode(ws);
    assert ws[..3] == vs[..3];
    HeadEncoded(vs[..3]);
    CountersEncoded(vs);
    CountersEncoded(ws);
    CountersLength(vs[3..7]);
    CountersLength(ws[3..7]);
    Shorter(EncMsg(HEAD, vs[..3]), EncMsg(COUNTERS, vs[3..7]), EncMsg(ENTRIES, vs[7..]),
            EncMsg(COUNTERS, ws[3..7]), EncMsg(ENTRIES, ws[7..]));
  }

  lemma Shorter(a: Bytes, b: Bytes, c: Bytes, b': Bytes, c': Bytes)
    requires a.Bytes? && b.Refused? && |b.s| <= 12 && b'.Bytes? && |b'.s| == 16
    ensures Then(a, Then(b, c)) != Then(a, Then(b', c'))
  {
    assert |Then(a, Then(b, c)).s| <= |a.s| + 12 && |Then(a, Then(b', c')).s| >= |a.s| + 16;
  }

  /** A message with term 2^32: the slow path refuses it, and through the inlined path the
      receiver gets it with term 0. */
  lemma InlineCutsTerm() returns (vs: seq<FieldVal>)
    ensures MsgFits(CONSENSUS, vs) && vs[3] == FV(VULong(TWO_32)) && Wrapped(vs) == vs[3 := FV(VULong(0))]
    ensures EncMsg(CONSENSUS, vs).Refused? && EncMsg(CONSENSUS, Wrapped(vs)).Bytes?
    ensures DecMsg(CONSENSUS, EncMsg(CONSENSUS, Wrapped(vs)).s) == Got(Wrapped(vs), [])
  {
    vs := [FV(VInt(3)), FV(VBool(false)), FV(VBytes(Zeros(16))), FV(VULong(TWO_32)),
           FV(VULong(0)), FV(VULong(0)), FV(VULong(0)), AV([])];
    OneMessage(vs);
    InlineAgrees(vs);
    assert vs[3].v.n >= TWO_32;
    MessageRoundTrip(CONSENSUS, Wrapped(vs), []);
    var e := EncMsg(CONSENSUS, Wrapped(vs)).s;
    assert e + [] == e;
  }

  lemma OneMessage(vs: seq<FieldVal>)
    requires |vs| == 8 && vs[0] == FV(VInt(3)) && vs[1] == FV(VBool(false)) && vs[2] == FV(VBytes(Zeros(16)))
    requires vs[3] == FV(VULong(TWO_32)) && vs[4] == vs[5] == vs[6] == FV(VULong(0)) && vs[7] == AV([])
    ensures MsgFits(CONSENSUS, vs) && EntriesOk(vs) && Wrapped(vs) == vs[3 := FV(VULong(0))]
  {
  }

  /** What the other side makes of a message written by the inlined path: the same message
      exactly if no counter had an upper half. */
  lemma InlineReceived(vs: seq<FieldVal>, rest: seq<byte>)
    requires MsgFits(CONSENSUS, vs) && EntriesOk(vs)
    ensures EncMsg(CONSENSUS, Wrapped(vs)).Bytes?
    ensures DecMsg(CONSENSUS, EncMsg(CONSENSUS, Wrapped(vs)).s + rest) == Got(Wrapped(vs), rest)
    ensures DecMsg(CONSENSUS, EncMsg(CONSENSUS, Wrapped(vs)).s + rest) == Got(vs, rest) <==> Small(vs)
    ensures forall k :: 0 <= k < 8 ==>
      FieldFits(CONSENSUS[k], vs[k])
      && Wrapped(vs)[k] == if 3 <= k < 7 then FV(VULong(vs[k].v.n % 0x1_0000_0000)) else vs[k]
  {
    assert |CONSENSUS| == 8 && forall k :: 3 <= k < 7 ==> CONSENSUS[k] == F(PULong);
    InlineAgrees(vs);
    WrappedSmall(vs);
    MessageRoundTrip(CONSENSUS, Wrapped(vs), rest);
  }

  // ----- running the filters -----

  /** What is still to be decoded, after some of it is done */
  function After<T>(done: seq<T>, d: Got<seq<T>>): Got<seq<T>> {
    if d.Failed? then Failed else Got(done + d.v, d.rest)
  }

  lemma AfterMore<T>(done: seq<T>, v: T, d: Got<seq<T>>)
    ensures After(done + [v], d) == After(done, After([v], d))
  {
    if d.Got? { assert done + [v] + d.v == done + ([v] + d.v); }
  }

  lemma AfterAll<T>(done: seq<T>, rest: seq<byte>)
    ensures After([], Got(done, rest)) == Got(done, rest) == After(done, Got([], rest))
  {
    assert [] + done == done == done + [];
  }

  lemma AfterNone<T>(d: Got<seq<T>>)
    ensures After([], d) == d
  {
    if d.Got? { assert [] + d.v == d.v; }
  }

  lemma RowNext(done: seq<Val>, ps: seq<Prim>, s: seq<byte>)
    requires ps != []
    ensures var d := Dec(ps[0], s);
      After(done, DecRow(ps, s)) == if d.Failed? then Failed else After(done + [d.v], DecRow(ps[1..], d.rest))
  {
    var d := Dec(ps[0], s);
    if d.Got? { AfterMore(done, d.v, DecRow(ps[1..], d.rest)); }
  }

  lemma RowsNext(done: seq<seq<Val>>, elem: seq<Prim>, c: nat, s: seq<byte>)
    requires c > 0
    ensures var d := DecRow(elem, s);
      After(done, DecRows(elem, c, s)) == if d.Failed? then Failed
        else After(done + [d.v], DecRows(elem, c - 1, d.rest))
  {
    var d := DecRow(elem, s);
    if d.Got? { AfterMore(done, d.v, DecRows(elem, c - 1, d.rest)); }
  }

  lemma MsgNext(done: seq<FieldVal>, fs: seq<Field>, s: seq<byte>)
    requires fs != []
    ensures var d := DecField(fs[0], s);
      After(done, DecMsg(fs, s)) == if d.Failed? then Failed else After(done + [d.v], DecMsg(fs[1..], d.rest))
  {
    var d := DecField(fs[0], s);
    if d.Got? { AfterMore(done, d.v, DecMsg(fs[1..], d.rest)); }
  }

  /** ok, v and the bytes left over are what the decoder d promises. */
  predicate Decoded<T(==)>(d: Got<T>, ok: bool, v: T, rest: seq<byte>) {
    if ok then d == Got(v, rest) else d.Failed?
  }

  /** ok, and the bytes added to before, which make up after, are what the encoder e promises. */
  predicate Encoded(e: Bytes, ok: bool, before: seq<byte>, after: seq<byte>) {
    ok == e.Bytes? && after == before + e.s
  }

  lemma EncodedNext(a: Bytes, b: Bytes, ok: bool, s: seq<byte>, t: seq<byte>, u: seq<byte>)
    requires Encoded(a, true, s, t) && Encoded(b, ok, t, u)
    ensures Encoded(Then(a, b), ok, s, u)
  {
    assert s + a.s + b.s == s + (a.s + b.s);
  }

  /** One filter more: out is written, a comes next and b is left. */
  lemma PutNext(out: seq<byte>, a: Bytes, b: Bytes, ok: bool, s: seq<byte>, t: seq<byte>)
    requires Encoded(a, ok, s + out, t)
    ensures t == s + (out + a.s)
    ensures Then(Bytes(out), Then(a, b)) == if ok then Then(Bytes(out + a.s), b) else Refused(out + a.s)
  {
    ThenAssoc(Bytes(out), a, b);
    assert s + out + a.s == s + (out + a.s);
  }

  lemma RowTail(ps: seq<Prim>, vs: seq<Val>, i: nat)
    requires RowFits(ps, vs) && i < |ps|
    ensures EncRow(ps[i..], vs[i..]) == Then(Enc(ps[i], vs[i]), EncRow(ps[i + 1..], vs[i + 1..]))
  {
    assert ps[i..][1..] == ps[i + 1..] && vs[i..][1..] == vs[i + 1..];
  }

  lemma RowsTail(elem: seq<Prim>, rows: seq<seq<Val>>, i: nat)
    requires forall j :: 0 <= j < |rows| ==> RowFits(elem, rows[j])
    requires i < |rows|
    ensures EncRows(elem, rows[i..]) == Then(EncRow(elem, rows[i]), EncRows(elem, rows[i + 1..]))
  {
    assert rows[i..][1..] == rows[i + 1..];
  }

  lemma EncTail(fs: seq<Field>, vs: seq<FieldVal>, i: nat)
    requires MsgFits(fs, vs) && i < |fs|
    ensures EncMsg(fs[i..], vs[i..]) == Then(EncField(fs[i], vs[i]), EncMsg(fs[i + 1..], vs[i + 1..]))
  {
    assert fs[i..][1..] == fs[i + 1..] && vs[i..][1..] == vs[i + 1..];
  }

  predicate Counter(n: int) {
    0 <= n < TWO_32
  }

  function Counters(a: int, b: int, c: int, d: int): (vs: seq<FieldVal>)
    requires Counter(a) && Counter(b) && Counter(c) && Counter(d)
    ensures MsgFits(COUNTERS, vs)
  {
    [FV(VULong(a)), FV(VULong(b)), FV(VULong(c)), FV(VULong(d))]
  }

  lemma CountersEncode(a: int, b: int, c: int, d: int)
    requires Counter(a) && Counter(b) && Counter(c) && Counter(d)
    ensures EncMsg(COUNTERS, Counters(a, b, c, d)) == Bytes(Word(a) + Word(b) + Word(c) + Word(d))
  {
    var vs := Counters(a, b, c, d);
    EncTail(COUNTERS, vs, 3);
    assert EncMsg(COUNTERS[3..], vs[3..]).s == Word(d);
    EncTail(COUNTERS, vs, 2);
    assert EncMsg(COUNTERS[2..], vs[2..]).s == Word(c) + Word(d);
    EncTail(COUNTERS, vs, 1);
    assert EncMsg(COUNTERS[1..], vs[1..]).s == Word(b) + (Word(c) + Word(d));
    EncTail(COUNTERS, vs, 0);
    assert COUNTERS[0..] == COUNTERS && vs[0..] == vs;
    assert Word(a) + Word(b) + Word(c) + Word(d) == Word(a) + (Word(b) + (Word(c) + Word(d)));
  }

  /** The counters of a message whose counters are cut short */
  lemma CountersWrap(vs: seq<FieldVal>)
    requires MsgFits(CONSENSUS, vs)
    ensures forall i :: 3 <= i < 7 ==> FieldFits(F(PULong), vs[i])
    ensures EncMsg(COUNTERS, Wrapped(vs)[3..7]) == Bytes(Word(vs[3].v.n % TWO_32) + Word(vs[4].v.n % TWO_32)
                                                         + Word(vs[5].v.n % TWO_32) + Word(vs[6].v.n % TWO_32))
  {
    assert forall i :: 3 <= i < 7 ==> CONSENSUS[i] == F(PULong) && FieldFits(CONSENSUS[i], vs[i]);
    var a, b, c, d := vs[3].v.n % TWO_32, vs[4].v.n % TWO_32, vs[5].v.n % TWO_32, vs[6].v.n % TWO_32;
    assert Wrapped(vs)[3..7] == Counters(a, b, c, d);
    CountersEncode(a, b, c, d);
  }

  lemma CounterNext(done: seq<FieldVal>, i: nat, s: seq<byte>)
    requires i < 4 && |s| >= 4
    ensures After(done, DecMsg(COUNTERS[i..], s)) ==
      After(done + [FV(VULong(UnWord(s[..4])))], DecMsg(COUNTERS[i + 1..], s[4..]))
  {
    assert COUNTERS[i] == F(PULong) && COUNTERS[i..][1..] == COUNTERS[i + 1..];
    MsgNext(done, COUNTERS[i..], s);
  }

  class Stream {
    var written: seq<byte>
    var unread: seq<byte>

    constructor (input: seq<byte>)
      ensures written == [] && unread == input
    {
      written, unread := [], input;
    }

    method PutWord(w: int)
      requires 0 <= w < TWO_32
      modifies `written
      ensures written == old(written) + Word(w)
    {
      written := written + Word(w);
    }

    /** Contents padded with zeros to a multiple of four */
    method PutOpaque(s: seq<byte>)
      modifies `written
      ensures written == old(written) + Opaque(s)
    {
      written := written + s;
      var i := 0;
      while (|s| + i) % 4 != 0
        invariant 0 <= i <= Pad(|s|)
        invariant written == old(written) + s + Zeros(i)
        decreases Pad(|s|) - i
      {
        written := written + [0];
        i := i + 1;
      }
    }

    method Put(p: Prim, v: Val) returns (ok: bool)
      requires Fits(p, v)
      modifies `written
      ensures Encoded(Enc(p, v), ok, old(written), written)
    {
      ok := true;
      match p
      case PInt => PutWord(OfInt(v.i));
      case PBool => PutWord(if v.b then 1 else 0);
      case PULong =>
        if v.n >= TWO_32 { return false; }
        PutWord(v.n);
      case POpaque(n) => PutOpaque(v.s);
      case PString =>
        if (|v.s| + 1) % TWO_32 == 0 {
          PutWord(|v.s|);
          return false;
        }
        PutCounted(v.s);
      case PBytes => PutCounted(v.s);
    }

    method PutCounted(s: seq<byte>)
      requires |s| < TWO_32
      modifies `written
      ensures written == old(written) + (Word(|s|) + Opaque(s))
    {
      PutWord(|s|);
      PutOpaque(s);
    }

    /** The filter of a structure: its fields in order, stopping at the first that is refused */
    method PutRow(ps: seq<Prim>, vs: seq<Val>) returns (ok: bool)
      requires RowFits(ps, vs)
      modifies `written
      ensures Encoded(EncRow(ps, vs), ok, old(written), written)
    {
      var i := 0;
      ghost var out: seq<byte> := [];
      while i < |ps|
        invariant 0 <= i <= |ps| && written == old(written) + out
        invariant EncRow(ps, vs) == Then(Bytes(out), EncRow(ps[i..], vs[i..]))
      {
        ghost var a, b := Enc(ps[i], vs[i]), EncRow(ps[i + 1..], vs[i + 1..]);
        RowTail(ps, vs, i);
        ok := Put(ps[i], vs[i]);
        PutNext(out, a, b, ok, old(written), written);
        if !ok { return; }
        out := out + a.s;
        i := i + 1;
      }
      ok := true;
    }

    method PutRows(elem: seq<Prim>, rows: seq<seq<Val>>) returns (ok: bool)
      requires forall i :: 0 <= i < |rows| ==> RowFits(elem, rows[i])
      modifies `written
      ensures Encoded(EncRows(elem, rows), ok, old(written), written)
    {
      var i := 0;
      ghost var out: seq<byte> := [];
      while i < |rows|
        invariant 0 <= i <= |rows| && written == old(written) + out
        invariant EncRows(elem, rows) == Then(Bytes(out), EncRows(elem, rows[i..]))
      {
        ghost var a, b := EncRow(elem, rows[i]), EncRows(elem, rows[i + 1..]);
        RowsTail(elem, rows, i);
        ok := PutRow(elem, rows[i]);
        PutNext(out, a, b, ok, old(written), written);
        if !ok { return; }
        out := out + a.s;
        i := i + 1;
      }
      ok := true;
    }

    method PutField(f: Field, v: FieldVal) returns (ok: bool)
      requires FieldFits(f, v)
      modifies `written
      ensures Encoded(EncField(f, v), ok, old(written), written)
    {
      match f
      case F(p) => ok := Put(p, v.v);
      case A(elem, elsize) =>
        PutWord(|v.rows|);
        ok := CountOk(|v.rows|, elsize);
        if ok {
          ghost var s := written;
          ok := PutRows(elem, v.rows);
          EncodedNext(Bytes(Word(|v.rows|)), EncRows(elem, v.rows), ok, old(written), s, written);
        }
    }

    /** The filter of a message, encoding */
    method PutMsg(fs: seq<Field>, vs: seq<FieldVal>) returns (ok: bool)
      requires MsgFits(fs, vs)
      modifies `written
      ensures Encoded(EncMsg(fs, vs), ok, old(written), written)
    {
      var i := 0;
      ghost var out: seq<byte> := [];
      while i < |fs|
        invariant 0 <= i <= |fs| && written == old(written) + out
        invariant EncMsg(fs, vs) == Then(Bytes(out), EncMsg(fs[i..], vs[i..]))
      {
        ghost var a, b := EncField(fs[i], vs[i]), EncMsg(fs[i + 1..], vs[i + 1..]);
        EncTail(fs, vs, i);
        ok := PutField(fs[i], vs[i]);
        PutNext(out, a, b, ok, old(written), written);
        if !ok { return; }
        out := out + a.s;
        i := i + 1;
      }
      ok := true;
    }

    /** The four counters as IXDR_PUT_U_LONG leaves them in the buffer */
    method PutInlined(a: int, b: int, c: int, d: int)
      requires 0 <= a && 0 <= b && 0 <= c && 0 <= d
      modifies `written
      ensures written == old(written) + (Word(a % TWO_32) + Word(b % TWO_32) + Word(c % TWO_32) + Word(d % TWO_32))
    {
      PutWord(a % TWO_32);
      PutWord(b % TWO_32);
      PutWord(c % TWO_32);
      PutWord(d % TWO_32);
    }

    method PutCounters(vs: seq<FieldVal>, inlined: bool) returns (ok: bool)
      requires MsgFits(CONSENSUS, vs)
      modifies `written
      ensures MsgFits(COUNTERS, Chosen(vs, inlined)[3..7])
      ensures Encoded(EncMsg(COUNTERS, Chosen(vs, inlined)[3..7]), ok, old(written), written)
    {
      FieldKinds(Chosen(vs, inlined));
      if inlined {
        CountersWrap(vs);
        PutInlined(vs[3].v.n, vs[4].v.n, vs[5].v.n, vs[6].v.n);
        ok := true;
      } else {
        ok := PutMsg(COUNTERS, vs[3..7]);
      }
    }

    /** The filter of a consensus message, encoding: inlined says whether XDR_INLINE gave a buffer
        for the counters. */
    method PutConsensus(vs: seq<FieldVal>, inlined: bool) returns (ok: bool)
      requires MsgFits(CONSENSUS, vs)
      modifies `written
      ensures Encoded(EncMsg(CONSENSUS, Chosen(vs, inlined)), ok, old(written), written)
    {
      FieldKinds(vs);
      PartsEncode(Chosen(vs, inlined));
      assert Chosen(vs, inlined)[..3] == vs[..3] && Chosen(vs, inlined)[7..] == vs[7..];
      ghost var a, b, c := EncMsg(HEAD, vs[..3]), EncMsg(COUNTERS, Chosen(vs, inlined)[3..7]), EncMsg(ENTRIES, vs[7..]);
      assert EncMsg(CONSENSUS, Chosen(vs, inlined)) == Then(a, Then(b, c));
      ok := PutMsg(HEAD, vs[..3]);
      if !ok { return; }
      ghost var s := written;
      ok := PutCounters(vs, inlined);
      if !ok { return; }
      ghost var t := written;
      ok := PutMsg(ENTRIES, vs[7..]);
      EncodedNext(b, c, ok, s, t, written);
      EncodedNext(a, Then(b, c), ok, old(written), s, written);
    }

    method GetWord() returns (ok: bool, w: int)
      modifies `unread
      ensures Decoded(DecWord(old(unread)), ok, w, unread)
    {
      ok, w := |unread| >= 4, 0;
      if ok { w, unread := UnWord(unread[..4]), unread[4..]; }
    }

    method GetOpaque(n: nat) returns (ok: bool, s: seq<byte>)
      modifies `unread
      ensures Decoded(DecOpaque(old(unread), n), ok, s, unread)
    {
      ok, s := |unread| >= n + Pad(n), [];
      if ok { s, unread := unread[..n], unread[n + Pad(n)..]; }
    }

    method GetCounted() returns (ok: bool, s: seq<byte>)
      modifies `unread
      ensures Decoded(DecCounted(old(unread)), ok, s, unread)
    {
      var n;
      s := [];
      ok, n := GetWord();
      if ok { ok, s := GetOpaque(n); }
    }

    method Get(p: Prim) returns (ok: bool, v: Val)
      modifies `unread
      ensures Decoded(Dec(p, old(unread)), ok, v, unread)
    {
      var w, t;
      v := VBool(false);
      match p
      case PInt =>
        ok, w := GetWord();
        if ok { v := VInt(ToInt(w)); }
      case PBool =>
        ok, w := GetWord();
        if ok { v := VBool(w != 0); }
      case PULong =>
        ok, w := GetWord();
        if ok { v := VULong(w); }
      case POpaque(n) =>
        ok, t := GetOpaque(n);
        v := VBytes(t);
      case PString =>
        ok, t := GetString();
        v := VBytes(t);
      case PBytes =>
        ok, t := GetCounted();
        v := VBytes(t);
    }

    /** The length of a string is refused when the buffer for it and its NUL would be empty. */
    method GetString() returns (ok: bool, s: seq<byte>)
      modifies `unread
      ensures Decoded(Dec(PString, old(unread)), ok, VBytes(s), unread)
    {
      var n;
      s := [];
      ok, n := GetWord();
      if !ok { return; }
      if (n + 1) % TWO_32 == 0 { return false, []; }
      ok, s := GetOpaque(n);
      if ok { s := UpToNul(s); }
    }

    /** What a reader of the buffer takes for the string */
    method UpToNul(s: seq<byte>) returns (t: seq<byte>)
      ensures t == CString(s)
    {
      var i := 0;
      while i < |s| && s[i] != 0
        invariant 0 <= i <= |s| && CString(s) == s[..i] + CString(s[i..])
      {
        assert s[i..][1..] == s[i + 1..] && s[..i + 1] == s[..i] + [s[i]];
        i := i + 1;
      }
      t := s[..i];
    }

    method GetRow(ps: seq<Prim>) returns (ok: bool, vs: seq<Val>)
      modifies `unread
      ensures Decoded(DecRow(ps, old(unread)), ok, vs, unread)
    {
      var i, v := 0, VBool(false);
      vs := [];
      AfterNone(DecRow(ps, unread));
      while i < |ps|
        invariant 0 <= i <= |ps|
        invariant DecRow(ps, old(unread)) == After(vs, DecRow(ps[i..], unread))
      {
        assert ps[i..][1..] == ps[i + 1..];
        RowNext(vs, ps[i..], unread);
        ok, v := Get(ps[i]);
        if !ok { return; }
        vs, i := vs + [v], i + 1;
      }
      ok := true;
      AfterAll(vs, unread);
    }

    method GetRows(elem: seq<Prim>, c: nat) returns (ok: bool, rows: seq<seq<Val>>)
      modifies `unread
      ensures Decoded(DecRows(elem, c, old(unread)), ok, rows, unread)
    {
      var i, row := 0, [];
      rows := [];
      AfterNone(DecRows(elem, c, unread));
      while i < c
        invariant 0 <= i <= c
        invariant DecRows(elem, c, old(unread)) == After(rows, DecRows(elem, c - i, unread))
      {
        RowsNext(rows, elem, c - i, unread);
        ok, row := GetRow(elem);
        if !ok { return; }
        rows, i := rows + [row], i + 1;
      }
      ok := true;
      AfterAll(rows, unread);
    }

    method GetField(f: Field) returns (ok: bool, v: FieldVal)
      modifies `unread
      ensures Decoded(DecField(f, old(unread)), ok, v, unread)
    {
      v := AV([]);
      match f
      case F(p) =>
        var u;
        ok, u := Get(p);
        v := FV(u);
      case A(elem, elsize) =>
        var c, rows;
        ok, c := GetWord();
        if !ok { return; }
        ok := CountOk(c, elsize);
        if !ok { return; }
        ok, rows := GetRows(elem, c);
        v := AV(rows);
    }

    /** The filter of a message, decoding */
    method GetMsg(fs: seq<Field>) returns (ok: bool, vs: seq<FieldVal>)
      modifies `unread
      ensures Decoded(DecMsg(fs, old(unread)), ok, vs, unread)
    {
      var i, v := 0, AV([]);
      vs := [];
      AfterNone(DecMsg(fs, unread));
      while i < |fs|
        invariant 0 <= i <= |fs|
        invariant DecMsg(fs, old(unread)) == After(vs, DecMsg(fs[i..], unread))
      {
        assert fs[i..][1..] == fs[i + 1..];
        MsgNext(vs, fs[i..], unread);
        ok, v := GetField(fs[i]);
        if !ok { return; }
        vs, i := vs + [v], i + 1;
      }
      ok := true;
      AfterAll(vs, unread);
    }

    /** IXDR_GET_U_LONG on the next word of the buffer */
    method GetInlined(i: nat, done: seq<FieldVal>) returns (vs: seq<FieldVal>)
      requires i < 4 && |unread| >= 4
      modifies `unread
      ensures |unread| == |old(unread)| - 4
      ensures After(done, DecMsg(COUNTERS[i..], old(unread))) == After(vs, DecMsg(COUNTERS[i + 1..], unread))
    {
      CounterNext(done, i, unread);
      vs := done + [FV(VULong(UnWord(unread[..4])))];
      unread := unread[4..];
    }

    method GetCounters(inlined: bool) returns (ok: bool, vs: seq<FieldVal>)
      modifies `unread
      ensures Decoded(DecMsg(COUNTERS, old(unread)), ok, vs, unread)
    {
      if inlined && |unread| >= 16 {
        ghost var s := unread;
        AfterNone(DecMsg(COUNTERS, s));
        assert COUNTERS[0..] == COUNTERS;
        vs := GetInlined(0, []);
        vs := GetInlined(1, vs);
        vs := GetInlined(2, vs);
        vs := GetInlined(3, vs);
        assert COUNTERS[4..] == [];
        AfterAll(vs, unread);
        ok := true;
      } else {
        ok, vs := GetMsg(COUNTERS);
      }
    }

    /** The filter of a consensus message, decoding: whether the counters are read through the
        buffer of XDR_INLINE or one by one makes no difference. A buffer is given only for bytes
        that have arrived. */
    method GetConsensus(inlined: bool) returns (ok: bool, vs: seq<FieldVal>)
      modifies `unread
      ensures Decoded(DecMsg(CONSENSUS, old(unread)), ok, vs, unread)
    {
      ConsensusParts();
      DecSplits(HEAD, COUNTERS + ENTRIES, unread);
      var us, ws;
      ok, vs := GetMsg(HEAD);
      if !ok { return; }
      DecSplits(COUNTERS, ENTRIES, unread);
      ok, us := GetCounters(inlined);
      if !ok { return; }
      ok, ws := GetMsg(ENTRIES);
      vs := vs + (us + ws);
    }
  }

  /** A consensus message sent and received: whichever paths the two sides take, if the sender
      reports success and its counters have no upper halves, the receiver gets the message. */
  method Exchange(vs: seq<FieldVal>, sendInlined: bool, receiveInlined: bool)
    returns (sent: bool, got: bool, ws: seq<FieldVal>)
    requires MsgFits(CONSENSUS, vs)
    ensures sent <==> EntriesOk(vs) && (sendInlined || Small(vs))
    ensures sent ==> got && ws == Chosen(vs, sendInlined)
    ensures sent ==> (ws == vs <==> Small(vs))
  {
    InlineAgrees(vs);
    WrappedSmall(vs);
    ConsensusEncodes(vs);
    var a := new Stream([]);
    sent := a.PutConsensus(vs, sendInlined);
    got, ws := false, [];
    if sent {
      var b := new Stream(a.written);
      MessageRoundTrip(CONSENSUS, Chosen(vs, sendInlined), []);
      assert a.written == EncMsg(CONSENSUS, Chosen(vs, sendInlined)).s + [];
      got, ws := b.GetConsensus(receiveInlined);
    }
  }
}
