/** The packed form of an nvlist (nvlist.c): a 20-byte list header followed
    by the list's pair records, with each nested list written in place as
    its own header, its records and an "up" record that returns to the
    parent.

    The per-pair records are produced by nvpair.c, which is not part of
    this model. A packed buffer is therefore a sequence of tokens: the list
    headers are concrete bytes, while a pair record is a token that carries
    the pair's type, name and value and whose byte length comes from a
    `Layout` parameter (the size of a record header and of each payload).
    Every property below holds for every layout. */
module NvCodec {
  import opened Common
  import opened NvList

  /** `sizeof(struct nvlist_header)`: magic, version, flags and type bytes,
      then the descriptor count and the size as 64-bit integers, packed. */
  const HeaderSize: nat := 20
  const HeaderMagic: byte := 0x6c
  const HeaderVersion: byte := 0x00
  const Two64: nat := 0x1_0000_0000_0000_0000

  /** The sizes nvpair.c gives a record: `nvpair_header_size()` and, per
      value, `nvpair_size()`. */
  datatype Layout = Layout(pairHeader: nat, payload: Data -> nat)

  /** A record header plus the NUL-terminated name. */
  function RecordSize(lay: Layout, name: string): nat {
    lay.pairHeader + |name| + 1
  }

  /** The up record: a record header and an empty name. */
  function UpSize(lay: Layout): nat {
    lay.pairHeader + 1
  }

  type HeaderBytes = s: seq<byte> | |s| == HeaderSize
    witness [0, 0, 0, 0, 0, 0, 0, 0, 0, 0, 0, 0, 0, 0, 0, 0, 0, 0, 0, 0]

  /** One element of a packed buffer. A pair whose value is a nested list is
      written as a `ListTok` record followed by the nested list's header. */
  datatype Tok =
    | HeaderTok(raw: HeaderBytes)
    | PairTok(ty: uint8, name: string, data: Data)
    | ListTok(ty: uint8, name: string)
    | UpTok

  function TokSize(lay: Layout, t: Tok): (n: nat)
    ensures n > 0
  {
    match t
    case HeaderTok(_) => HeaderSize
    case PairTok(_, name, data) => RecordSize(lay, name) + lay.payload(data)
    case ListTok(_, name) => RecordSize(lay, name)
    case UpTok => UpSize(lay)
  }

  /** The number of bytes a token sequence occupies. */
  function TokBytes(lay: Layout, ts: seq<Tok>): nat {
    if ts == [] then 0 else TokSize(lay, ts[0]) + TokBytes(lay, ts[1..])
  }

  lemma {:induction false} TokBytesAppend(lay: Layout, a: seq<Tok>, b: seq<Tok>)
    ensures TokBytes(lay, a + b) == TokBytes(lay, a) + TokBytes(lay, b)
  {
    if a == [] {
      assert a + b == b;
    } else {
      assert (a + b)[0] == a[0];
      assert (a + b)[1..] == a[1..] + b;
      TokBytesAppend(lay, a[1..], b);
    }
  }

  // ---------------------------------------------------------------------
  // Sizes (nvlist_size)
  // ---------------------------------------------------------------------

  /** The bytes one pair takes: its record and payload, or, for a nested
      list, its record, the nested header, the nested pairs and the up
      record. */
  function PairSize(lay: Layout, p: NvPair): (n: nat)
    ensures n >= RecordSize(lay, p.name) > 0
    decreases p
  {
    if p.data.ListValue? then
      RecordSize(lay, p.name) + HeaderSize + BodyFrom(lay, p.data.list, 0) + UpSize(lay)
    else
      RecordSize(lay, p.name) + lay.payload(p.data)
  }

  /** The bytes of the pairs of `l` from position `i` on. */
  function BodyFrom(lay: Layout, l: Nvl, i: nat): nat
    decreases l, 0, |l.pairs| - i
  {
    if i >= |l.pairs| then 0 else PairSize(lay, l.pairs[i]) + BodyFrom(lay, l, i + 1)
  }

  /** `nvlist_size`: one header plus the bytes of every pair. */
  function Size(lay: Layout, l: Nvl): nat {
    HeaderSize + BodyFrom(lay, l, 0)
  }

  // ---------------------------------------------------------------------
  // Little-endian fields
  // ---------------------------------------------------------------------

  function Pow256(k: nat): (r: nat)
    ensures r > 0
  {
    if k == 0 then 1 else 256 * Pow256(k - 1)
  }

  lemma Pow256Eight()
    ensures Pow256(8) == Two64
  {
    assert Pow256(2) == 0x1_0000;
    assert Pow256(4) == 0x1_0000_0000 by {
      assert Pow256(3) == 0x100_0000;
    }
    assert Pow256(6) == 0x1_0000_0000_0000 by {
      assert Pow256(5) == 0x100_0000_0000;
    }
    assert Pow256(7) == 0x100_0000_0000_0000;
  }

  /** The low `k` bytes of `n`, least significant first. */
  function LeBytes(n: nat, k: nat): (b: seq<byte>)
    ensures |b| == k
  {
    if k == 0 then [] else [n % 256] + LeBytes(n / 256, k - 1)
  }

  /** The number whose little-endian bytes are `b`. */
  function LeValue(b: seq<byte>): nat {
    if b == [] then 0 else b[0] + 256 * LeValue(b[1..])
  }

  lemma {:induction false} LeValueBound(b: seq<byte>)
    ensures LeValue(b) < Pow256(|b|)
  {
    if b != [] {
      LeValueBound(b[1..]);
    }
  }

  lemma {:induction false} LeRoundTrip(n: nat, k: nat)
    requires n < Pow256(k)
    ensures LeValue(LeBytes(n, k)) == n
  {
    if k > 0 {
      var b := LeBytes(n, k);
      DivModByte(n, k);
      LeRoundTrip(n / 256, k - 1);
      assert b[1..] == LeBytes(n / 256, k - 1);
    }
  }

  /** Reading bytes as a number and writing the number back gives the same
      bytes. */
  lemma {:induction false} LeBytesOfValue(b: seq<byte>)
    ensures LeBytes(LeValue(b), |b|) == b
  {
    if b != [] {
      var n := LeValue(b);
      assert n % 256 == b[0] && n / 256 == LeValue(b[1..]);
      LeBytesOfValue(b[1..]);
    }
  }

  lemma DivModByte(n: nat, k: nat)
    requires k > 0 && n < Pow256(k)
    ensures n == n % 256 + 256 * (n / 256) && n / 256 < Pow256(k - 1)
  {
  }

  function Reverse(b: seq<byte>): (r: seq<byte>)
    ensures |r| == |b| && forall i :: 0 <= i < |b| ==> r[i] == b[|b| - 1 - i]
  {
    if b == [] then [] else Reverse(b[1..]) + [b[0]]
  }

  lemma ReverseReverse(b: seq<byte>)
    ensures Reverse(Reverse(b)) == b
  {
  }

  /** A `size_t` stored in a 64-bit header field: truncated to 64 bits and
      written in the little-endian order of the hosts the library runs on. */
  function Le64(n: nat): (b: seq<byte>)
    ensures |b| == 8
  {
    LeBytes(n % Two64, 8)
  }

  // ---------------------------------------------------------------------
  // Headers (nvlist_pack_header, nvlist_check_header)
  // ---------------------------------------------------------------------

  /** The flag byte `nvlist_pack_header` writes on a little-endian host:
      the list's public flags, without `NV_FLAG_BIG_ENDIAN`. */
  function FlagsByte(ignoreCase: bool): byte {
    if ignoreCase then NvFlagIgnoreCase else 0
  }

  function HeaderBytesOf(flags: byte, ty: uint8, descriptors: nat, size: nat): HeaderBytes {
    [HeaderMagic, HeaderVersion, flags, ty] + Le64(descriptors) + Le64(size)
  }

  /** The header `nvlist_pack_header` writes for list `l` when `size` bytes
      of the buffer follow it. */
  function HeaderOf(l: Nvl, size: nat): HeaderBytes {
    HeaderBytesOf(FlagsByte(l.ignoreCase), l.ty, Descriptors(l), size)
  }

  /** The header of a list packed on a big-endian host: the same fields
      with the 64-bit values most significant byte first and the
      big-endian flag set. */
  function BigEndianHeaderOf(l: Nvl, size: nat): HeaderBytes {
    [HeaderMagic, HeaderVersion, FlagsByte(l.ignoreCase) + NvFlagBigEndian, l.ty]
      + Reverse(Le64(Descriptors(l))) + Reverse(Le64(size))
  }

  /** A header as `nvlist_check_header` leaves it. */
  datatype Header = Header(flags: byte, ty: uint8, descriptors: nat, size: nat)

  /** `(flags & ~NV_FLAG_ALL_MASK) == 0`: no bit is set but the
      ignore-case bit (0x01) and the big-endian bit (0x80). */
  predicate FlagsInMask(f: byte) {
    f % NvFlagBigEndian / 2 == 0
  }

  /** The value of a 64-bit header field: read in host (little-endian)
      order, and byte-swapped when the header says the sender was
      big-endian. */
  function Field(b: seq<byte>, bigEndian: bool): nat {
    if bigEndian then LeValue(Reverse(b)) else LeValue(b)
  }

  /** `nvlist_check_header`: rejects a wrong magic byte and flags outside
      `NV_FLAG_ALL_MASK`; otherwise decodes the two 64-bit fields. The
      version byte is not checked. */
  function CheckHeader(raw: HeaderBytes): (r: Option<Header>)
    ensures r.None? <==> raw[0] != HeaderMagic || !FlagsInMask(raw[2])
    ensures r.Some? ==> r.value.flags == raw[2] && r.value.ty == raw[3]
    ensures r.Some? ==> r.value.descriptors < Two64 && r.value.size < Two64
  {
    if raw[0] != HeaderMagic || !FlagsInMask(raw[2]) then None
    else
      var be := BigEndianFlag(raw[2]);
      FieldBound(raw[4..12], be);
      FieldBound(raw[12..20], be);
      Some(Header(raw[2], raw[3], Field(raw[4..12], be), Field(raw[12..20], be)))
  }

  lemma FieldBound(b: seq<byte>, be: bool)
    requires |b| == 8
    ensures Field(b, be) < Two64
  {
    Pow256Eight();
    LeValueBound(b);
    LeValueBound(Reverse(b));
  }

  /** `flags & NV_FLAG_BIG_ENDIAN`: the top bit (0x80) is set. */
  predicate BigEndianFlag(f: byte) {
    f / NvFlagBigEndian == 1
  }

  /** `flags & NV_FLAG_IGNORE_CASE`: the low bit (0x01) is set. */
  predicate IgnoreCaseFlag(f: byte) {
    f % 2 == 1
  }

  lemma FlagsByteFacts(ic: bool)
    ensures FlagsInMask(FlagsByte(ic)) && !BigEndianFlag(FlagsByte(ic))
    ensures IgnoreCaseFlag(FlagsByte(ic)) == ic
    ensures FlagsInMask(FlagsByte(ic) + NvFlagBigEndian)
    ensures BigEndianFlag(FlagsByte(ic) + NvFlagBigEndian)
    ensures IgnoreCaseFlag(FlagsByte(ic) + NvFlagBigEndian) == ic
  {
  }

  lemma {:induction false} HeaderFields(flags: byte, ty: uint8, a: seq<byte>, b: seq<byte>)
    requires |a| == 8 && |b| == 8
    ensures var raw := [HeaderMagic, HeaderVersion, flags, ty] + a + b;
      raw[0] == HeaderMagic && raw[2] == flags && raw[3] == ty
      && raw[4..12] == a && raw[12..20] == b
  {
    var x := [HeaderMagic, HeaderVersion, flags, ty];
    Slices(x, a, b);
  }

  lemma Slices(x: seq<byte>, a: seq<byte>, b: seq<byte>)
    requires |x| == 4 && |a| == 8 && |b| == 8
    ensures (x + a + b)[..4] == x && (x + a + b)[4..12] == a && (x + a + b)[12..20] == b
  {
  }

  lemma Le64RoundTrip(n: nat)
    requires n < Two64
    ensures LeValue(Le64(n)) == n && LeValue(Reverse(Reverse(Le64(n)))) == n
  {
    assert n % Two64 == n;
    assert Le64(n) == LeBytes(n, 8);
    Pow256Eight();
    LeRoundTrip(n, 8);
    ReverseReverse(Le64(n));
  }

  /** A header packed on this host decodes to the list's flags, type,
      descriptor count and size. */
  lemma CheckHeaderRoundTrip(l: Nvl, size: nat)
    requires Descriptors(l) < Two64 && size < Two64
    ensures CheckHeader(HeaderOf(l, size)) == Some(Header(FlagsByte(l.ignoreCase), l.ty, Descriptors(l), size))
  {
    FlagsByteFacts(l.ignoreCase);
    HeaderFields(FlagsByte(l.ignoreCase), l.ty, Le64(Descriptors(l)), Le64(size));
    Le64RoundTrip(Descriptors(l));
    Le64RoundTrip(size);
  }

  /** A header packed on a big-endian host is byte-swapped back: it decodes
      to the same descriptor count and size. */
  lemma CheckHeaderBigEndian(l: Nvl, size: nat)
    requires Descriptors(l) < Two64 && size < Two64
    ensures CheckHeader(BigEndianHeaderOf(l, size))
      == Some(Header(FlagsByte(l.ignoreCase) + NvFlagBigEndian, l.ty, Descriptors(l), size))
  {
    FlagsByteFacts(l.ignoreCase);
    HeaderFields(FlagsByte(l.ignoreCase) + NvFlagBigEndian, l.ty,
      Reverse(Le64(Descriptors(l))), Reverse(Le64(size)));
    Le64RoundTrip(Descriptors(l));
    Le64RoundTrip(size);
  }

  /** `nvlist_unpack_header` with `left` bytes remaining from the header
      on: aborts when the header does not fit, fails the check, declares a
      size other than the bytes that follow it, or declares more
      descriptors than were received. */
  function UnpackHeader(raw: HeaderBytes, left: nat, nfds: nat): (r: Outcome<Header>)
    ensures r.Abort? <==>
      left < HeaderSize || CheckHeader(raw).None?
      || CheckHeader(raw).value.size != left - HeaderSize
      || CheckHeader(raw).value.descriptors > nfds
    ensures r.Ret? ==> r.value == CheckHeader(raw).value
  {
    if left < HeaderSize then Abort
    else match CheckHeader(raw)
      case None => Abort
      case Some(h) =>
        if h.size != left - HeaderSize || h.descriptors > nfds then Abort else Ret(h)
  }

  /** The empty list `nvlist_unpack_header` fills in from a header: its
      public flags and its type. */
  function HeaderList(h: Header): Nvl {
    Nvl(0, IgnoreCaseFlag(h.flags), h.ty, [])
  }

  // ---------------------------------------------------------------------
  // The packed form
  // ---------------------------------------------------------------------

  /** The tokens of list `l` followed in the buffer by `after` more bytes. */
  function EncodeList(lay: Layout, l: Nvl, after: nat): seq<Tok>
    decreases l, 1
  {
    [HeaderTok(HeaderOf(l, BodyFrom(lay, l, 0) + after))] + EncodeFrom(lay, l, 0, after)
  }

  /** The tokens of the pairs of `l` from position `i` on. */
  function EncodeFrom(lay: Layout, l: Nvl, i: nat, after: nat): seq<Tok>
    decreases l, 0, |l.pairs| - i
  {
    if i >= |l.pairs| then []
    else EncodePair(lay, l.pairs[i], BodyFrom(lay, l, i + 1) + after) + EncodeFrom(lay, l, i + 1, after)
  }

  function EncodePair(lay: Layout, p: NvPair, after: nat): seq<Tok>
    decreases p
  {
    if p.data.ListValue? then
      [ListTok(p.ty, p.name)] + EncodeList(lay, p.data.list, UpSize(lay) + after) + [UpTok]
    else
      [PairTok(p.ty, p.name, p.data)]
  }

  /** The packed form of a whole list: nothing follows the root. */
  function Pack(lay: Layout, l: Nvl): seq<Tok> {
    EncodeList(lay, l, 0)
  }

  /** The packed form takes exactly the bytes `nvlist_size` computes. */
  lemma PackSize(lay: Layout, l: Nvl)
    ensures TokBytes(lay, Pack(lay, l)) == Size(lay, l)
  {
    ListBytes(lay, l, 0);
  }

  lemma {:induction false} ListBytes(lay: Layout, l: Nvl, after: nat)
    ensures TokBytes(lay, EncodeList(lay, l, after)) == HeaderSize + BodyFrom(lay, l, 0)
    decreases l, 1
  {
    var h := [HeaderTok(HeaderOf(l, BodyFrom(lay, l, 0) + after))];
    TokBytesAppend(lay, h, EncodeFrom(lay, l, 0, after));
    FromBytes(lay, l, 0, after);
    assert TokBytes(lay, h) == HeaderSize by {
      assert h[1..] == [];
    }
  }

  lemma {:induction false} FromBytes(lay: Layout, l: Nvl, i: nat, after: nat)
    ensures TokBytes(lay, EncodeFrom(lay, l, i, after)) == BodyFrom(lay, l, i)
    decreases l, 0, |l.pairs| - i
  {
    if i < |l.pairs| {
      var x := BodyFrom(lay, l, i + 1) + after;
      TokBytesAppend(lay, EncodePair(lay, l.pairs[i], x), EncodeFrom(lay, l, i + 1, after));
      PairBytes(lay, l.pairs[i], x);
      FromBytes(lay, l, i + 1, after);
    }
  }

  lemma {:induction false} PairBytes(lay: Layout, p: NvPair, after: nat)
    ensures TokBytes(lay, EncodePair(lay, p, after)) == PairSize(lay, p)
    decreases p
  {
    if p.data.ListValue? {
      var sub := EncodeList(lay, p.data.list, UpSize(lay) + after);
      TokBytesAppend(lay, [ListTok(p.ty, p.name)], sub);
      TokBytesAppend(lay, [ListTok(p.ty, p.name)] + sub, [UpTok]);
      ListBytes(lay, p.data.list, UpSize(lay) + after);
      assert TokBytes(lay, [ListTok(p.ty, p.name)]) == RecordSize(lay, p.name) by {
        assert [ListTok(p.ty, p.name)][1..] == [];
      }
      assert TokBytes(lay, [UpTok]) == UpSize(lay) by {
        assert [UpTok][1..] == [];
      }
    } else {
      assert [PairTok(p.ty, p.name, p.data)][1..] == [];
    }
  }

  // ---------------------------------------------------------------------
  // Walking nested lists without recursion
  // ---------------------------------------------------------------------

  /** A non-empty stack, top first. The walks of `nvlist_size`,
      `nvlist_xpack` and `nvlist_xunpack` climb back through parent links;
      the model keeps the levels they would climb to on a stack. */
  datatype Stack<T> = Bottom(top: T) | Above(top: T, under: Stack<T>)

  function Depth<T>(s: Stack<T>): (n: nat)
    ensures n >= 1
  {
    match s
    case Bottom(_) => 1
    case Above(_, u) => 1 + Depth(u)
  }

  /** One level of a walk: a list and the position of its next pair. */
  datatype Frame = Frame(list: Nvl, idx: nat)

  /** The up records of the levels above the root. */
  function OpenUps(lay: Layout, w: Stack<Frame>): nat {
    match w
    case Bottom(_) => 0
    case Above(_, u) => UpSize(lay) + OpenUps(lay, u)
  }

  /** The walk after the pair the top level stands at. */
  function Advance(w: Stack<Frame>): Stack<Frame> {
    match w
    case Bottom(f) => Bottom(Frame(f.list, f.idx + 1))
    case Above(f, u) => Above(Frame(f.list, f.idx + 1), u)
  }

  /** The walk after descending into the list the top level's next pair
      holds. */
  function Descend(w: Stack<Frame>): Stack<Frame>
    requires w.top.idx < |w.top.list.pairs| && w.top.list.pairs[w.top.idx].data.ListValue?
  {
    Above(Frame(w.top.list.pairs[w.top.idx].data.list, 0), Advance(w))
  }

  /** The bytes still to come: the rest of the top level, then what
      follows it. */
  function RemSize(lay: Layout, w: Stack<Frame>): nat
    decreases w, 1
  {
    BodyFrom(lay, w.top.list, w.top.idx) + After(lay, w)
  }

  /** The bytes after the pairs of the top level: nothing at the root, else
      an up record and what remains of the levels under it. */
  function After(lay: Layout, w: Stack<Frame>): nat
    decreases w, 0
  {
    match w
    case Bottom(_) => 0
    case Above(_, u) => UpSize(lay) + RemSize(lay, u)
  }

  /** The tokens still to come when the walk stands at `w`. */
  function Rem(lay: Layout, w: Stack<Frame>): seq<Tok>
    decreases w, 1
  {
    EncodeFrom(lay, w.top.list, w.top.idx, After(lay, w)) + Closing(lay, w)
  }

  /** The tokens after the pairs of the top level. */
  function Closing(lay: Layout, w: Stack<Frame>): seq<Tok>
    decreases w, 0
  {
    match w
    case Bottom(_) => []
    case Above(_, u) => [UpTok] + Rem(lay, u)
  }

  /** Standing at the start of the root, the walk has the whole packed
      form but the root header still to come. */
  lemma RemStart(lay: Layout, l: Nvl)
    ensures Pack(lay, l)
      == [HeaderTok(HeaderBytesOf(FlagsByte(l.ignoreCase), l.ty, Descriptors(l), RemSize(lay, Bottom(Frame(l, 0)))))]
         + Rem(lay, Bottom(Frame(l, 0)))
    ensures Size(lay, l) == HeaderSize + RemSize(lay, Bottom(Frame(l, 0)))
  {
    assert Rem(lay, Bottom(Frame(l, 0))) == EncodeFrom(lay, l, 0, 0) + [];
  }

  lemma {:induction false} RemBytes(lay: Layout, w: Stack<Frame>)
    ensures TokBytes(lay, Rem(lay, w)) == RemSize(lay, w)
    decreases w
  {
    var here := EncodeFrom(lay, w.top.list, w.top.idx, After(lay, w));
    FromBytes(lay, w.top.list, w.top.idx, After(lay, w));
    TokBytesAppend(lay, here, Closing(lay, w));
    match w
    case Bottom(_) =>
      assert TokBytes(lay, Closing(lay, w)) == 0;
    case Above(_, u) =>
      RemBytes(lay, u);
      TokBytesAppend(lay, [UpTok], Rem(lay, u));
      assert [UpTok][1..] == [];
  }

  /** Advancing changes nothing under the top level. */
  lemma AdvanceKeeps(lay: Layout, w: Stack<Frame>)
    ensures Advance(w).top == Frame(w.top.list, w.top.idx + 1)
    ensures After(lay, Advance(w)) == After(lay, w) && Closing(lay, Advance(w)) == Closing(lay, w)
    ensures OpenUps(lay, Advance(w)) == OpenUps(lay, w)
    ensures Advance(w).Above? == w.Above? && (w.Above? ==> Advance(w).under == w.under)
  {
  }

  lemma Assoc<X>(a: seq<X>, b: seq<X>, c: seq<X>)
    ensures (a + b) + c == a + (b + c)
  {
  }

  /** The tokens and bytes of the pairs from `i` on: pair `i`'s, then
      those of the pairs after it. */
  lemma FromStep(lay: Layout, l: Nvl, i: nat, after: nat)
    requires i < |l.pairs|
    ensures EncodeFrom(lay, l, i, after)
      == EncodePair(lay, l.pairs[i], BodyFrom(lay, l, i + 1) + after) + EncodeFrom(lay, l, i + 1, after)
    ensures BodyFrom(lay, l, i) == PairSize(lay, l.pairs[i]) + BodyFrom(lay, l, i + 1)
  {
  }

  /** A pair holding no list is one record. */
  lemma ScalarPairTokens(lay: Layout, p: NvPair, after: nat)
    requires !p.data.ListValue?
    ensures EncodePair(lay, p, after) == [PairTok(p.ty, p.name, p.data)]
  {
  }

  /** A pair holding list `sub`: its record, `sub`'s tokens and the up
      record. */
  lemma ListPairTokens(lay: Layout, p: NvPair, after: nat)
    requires p.data.ListValue?
    ensures EncodePair(lay, p, after) == ([ListTok(p.ty, p.name)] + EncodeList(lay, p.data.list, UpSize(lay) + after)) + [UpTok]
    ensures PairSize(lay, p) == RecordSize(lay, p.name) + HeaderSize + BodyFrom(lay, p.data.list, 0) + UpSize(lay)
  {
  }

  /** A list's tokens: its header, then its pairs'. */
  lemma ListDef(lay: Layout, l: Nvl, after: nat)
    ensures EncodeList(lay, l, after) == [HeaderTok(HeaderOf(l, BodyFrom(lay, l, 0) + after))] + EncodeFrom(lay, l, 0, after)
  {
  }

  /** Standing before a pair that holds no list, the walk next meets that
      pair's record. */
  lemma RemPair(lay: Layout, w: Stack<Frame>)
    requires w.top.idx < |w.top.list.pairs| && !w.top.list.pairs[w.top.idx].data.ListValue?
    ensures var p := w.top.list.pairs[w.top.idx];
      Rem(lay, w) == [PairTok(p.ty, p.name, p.data)] + Rem(lay, Advance(w))
      && RemSize(lay, w) == PairSize(lay, p) + RemSize(lay, Advance(w))
  {
    var T := w.top.list;
    var i := w.top.idx;
    var p := T.pairs[i];
    var A := After(lay, w);
    AdvanceKeeps(lay, w);
    FromStep(lay, T, i, A);
    ScalarPairTokens(lay, p, BodyFrom(lay, T, i + 1) + A);
    Assoc([PairTok(p.ty, p.name, p.data)], EncodeFrom(lay, T, i + 1, A), Closing(lay, w));
  }

  lemma Regroup(whole: seq<Tok>, down: seq<Tok>, lt: Tok, ht: Tok, list: seq<Tok>, subToks: seq<Tok>, tail: seq<Tok>)
    requires whole == (([lt] + list) + [UpTok]) + tail && list == [ht] + subToks
    requires down == subToks + ([UpTok] + tail)
    ensures whole == [lt, ht] + down
  {
  }

  /** The tokens from a pair holding a list. */
  lemma RemListHere(lay: Layout, w: Stack<Frame>)
    requires w.top.idx < |w.top.list.pairs| && w.top.list.pairs[w.top.idx].data.ListValue?
    ensures var p := w.top.list.pairs[w.top.idx];
      var sub := p.data.list;
      var x := UpSize(lay) + (BodyFrom(lay, w.top.list, w.top.idx + 1) + After(lay, w));
      Rem(lay, w)
        == (([ListTok(p.ty, p.name)] + EncodeList(lay, sub, x)) + [UpTok])
           + (EncodeFrom(lay, w.top.list, w.top.idx + 1, After(lay, w)) + Closing(lay, w))
  {
    var T := w.top.list;
    var i := w.top.idx;
    var A := After(lay, w);
    var p := T.pairs[i];
    var B := BodyFrom(lay, T, i + 1) + A;
    RemDef(lay, w);
    FromStep(lay, T, i, A);
    ListPairTokens(lay, p, B);
    Chain(Rem(lay, w), EncodeFrom(lay, T, i, A), Closing(lay, w), EncodePair(lay, p, B), EncodeFrom(lay, T, i + 1, A),
      ([ListTok(p.ty, p.name)] + EncodeList(lay, p.data.list, UpSize(lay) + B)) + [UpTok]);
  }

  lemma Chain<X>(r: seq<X>, x: seq<X>, c: seq<X>, e: seq<X>, f: seq<X>, g: seq<X>)
    requires r == x + c && x == e + f && e == g
    ensures r == g + (f + c)
  {
  }

  /** `Rem` and `RemSize` unfolded once. */
  lemma RemDef(lay: Layout, w: Stack<Frame>)
    ensures Rem(lay, w) == EncodeFrom(lay, w.top.list, w.top.idx, After(lay, w)) + Closing(lay, w)
    ensures RemSize(lay, w) == BodyFrom(lay, w.top.list, w.top.idx) + After(lay, w)
  {
  }

  /** The tokens after descending into a pair holding a list. */
  lemma RemListDown(lay: Layout, w: Stack<Frame>)
    requires w.top.idx < |w.top.list.pairs| && w.top.list.pairs[w.top.idx].data.ListValue?
    ensures var sub := w.top.list.pairs[w.top.idx].data.list;
      var x := UpSize(lay) + (BodyFrom(lay, w.top.list, w.top.idx + 1) + After(lay, w));
      Rem(lay, Descend(w))
        == EncodeFrom(lay, sub, 0, x)
           + ([UpTok] + (EncodeFrom(lay, w.top.list, w.top.idx + 1, After(lay, w)) + Closing(lay, w)))
  {
    AdvanceKeeps(lay, w);
    RemDef(lay, Descend(w));
    RemDef(lay, Advance(w));
  }

  /** The bytes after descending into a pair holding a list. */
  lemma RemSizeDown(lay: Layout, w: Stack<Frame>)
    requires w.top.idx < |w.top.list.pairs| && w.top.list.pairs[w.top.idx].data.ListValue?
    ensures var sub := w.top.list.pairs[w.top.idx].data.list;
      RemSize(lay, Descend(w))
        == BodyFrom(lay, sub, 0) + (UpSize(lay) + (BodyFrom(lay, w.top.list, w.top.idx + 1) + After(lay, w)))
  {
    AdvanceKeeps(lay, w);
    RemDef(lay, Descend(w));
    RemDef(lay, Advance(w));
  }

  /** Standing before a pair that holds list `sub`, the walk next meets the
      pair's record and `sub`'s header, whose size field counts every byte
      after it, and then walks `sub` one level up the stack. */
  lemma RemList(lay: Layout, w: Stack<Frame>)
    requires w.top.idx < |w.top.list.pairs| && w.top.list.pairs[w.top.idx].data.ListValue?
    ensures var p := w.top.list.pairs[w.top.idx];
      Rem(lay, w) == [ListTok(p.ty, p.name), HeaderTok(HeaderOf(p.data.list, RemSize(lay, Descend(w))))]
        + Rem(lay, Descend(w))
    ensures RemSize(lay, w) == RecordSize(lay, w.top.list.pairs[w.top.idx].name) + HeaderSize + RemSize(lay, Descend(w))
  {
    RemListTokens(lay, w);
    RemListSize(lay, w);
  }

  lemma RemListTokens(lay: Layout, w: Stack<Frame>)
    requires w.top.idx < |w.top.list.pairs| && w.top.list.pairs[w.top.idx].data.ListValue?
    ensures var p := w.top.list.pairs[w.top.idx];
      Rem(lay, w) == [ListTok(p.ty, p.name), HeaderTok(HeaderOf(p.data.list, RemSize(lay, Descend(w))))]
        + Rem(lay, Descend(w))
  {
    RemListJoin(lay, w);
    RemSizeDown(lay, w);
  }

  /** `RemListTokens`, with the header's size field written as `sub`'s
      body and what follows it. */
  lemma RemListJoin(lay: Layout, w: Stack<Frame>)
    requires w.top.idx < |w.top.list.pairs| && w.top.list.pairs[w.top.idx].data.ListValue?
    ensures var p := w.top.list.pairs[w.top.idx];
      var sub := p.data.list;
      var x := UpSize(lay) + (BodyFrom(lay, w.top.list, w.top.idx + 1) + After(lay, w));
      Rem(lay, w) == [ListTok(p.ty, p.name), HeaderTok(HeaderOf(sub, BodyFrom(lay, sub, 0) + x))] + Rem(lay, Descend(w))
  {
    var T := w.top.list;
    var i := w.top.idx;
    var p := T.pairs[i];
    var sub := p.data.list;
    var x := UpSize(lay) + (BodyFrom(lay, T, i + 1) + After(lay, w));
    RemListHere(lay, w);
    RemListDown(lay, w);
    ListDef(lay, sub, x);
    var tail := EncodeFrom(lay, T, i + 1, After(lay, w)) + Closing(lay, w);
    assert A1: Rem(lay, w) == (([ListTok(p.ty, p.name)] + EncodeList(lay, sub, x)) + [UpTok]) + tail;
    assert A2: EncodeList(lay, sub, x) == [HeaderTok(HeaderOf(sub, BodyFrom(lay, sub, 0) + x))] + EncodeFrom(lay, sub, 0, x);
    assert A3: Rem(lay, Descend(w)) == EncodeFrom(lay, sub, 0, x) + ([UpTok] + tail);
    Regroup(Rem(lay, w), Rem(lay, Descend(w)), ListTok(p.ty, p.name), HeaderTok(HeaderOf(sub, BodyFrom(lay, sub, 0) + x)),
      EncodeList(lay, sub, x), EncodeFrom(lay, sub, 0, x), EncodeFrom(lay, T, i + 1, After(lay, w)) + Closing(lay, w));
  }

  lemma RemListSize(lay: Layout, w: Stack<Frame>)
    requires w.top.idx < |w.top.list.pairs| && w.top.list.pairs[w.top.idx].data.ListValue?
    ensures RemSize(lay, w) == RecordSize(lay, w.top.list.pairs[w.top.idx].name) + HeaderSize + RemSize(lay, Descend(w))
  {
    var T := w.top.list;
    var i := w.top.idx;
    RemDef(lay, w);
    FromStep(lay, T, i, After(lay, w));
    ListPairTokens(lay, T.pairs[i], BodyFrom(lay, T, i + 1) + After(lay, w));
    RemSizeDown(lay, w);
  }

  /** At the end of a nested level the walk meets the up record and returns
      to the level under it. */
  lemma RemUp(lay: Layout, w: Stack<Frame>)
    requires w.Above? && w.top.idx >= |w.top.list.pairs|
    ensures Rem(lay, w) == [UpTok] + Rem(lay, w.under)
    ensures RemSize(lay, w) == UpSize(lay) + RemSize(lay, w.under)
  {
  }

  /** What the next token says about the walk: nothing is left only at the
      end of the root; a pair token stands for a pair without a list, a
      list token for a pair with one, an up token for the end of a nested
      level, and no header comes where a record is due. */
  lemma RemKinds(lay: Layout, w: Stack<Frame>)
    ensures Rem(lay, w) == [] <==> w.Bottom? && w.top.idx >= |w.top.list.pairs|
    ensures Rem(lay, w) != [] ==> !Rem(lay, w)[0].HeaderTok?
    ensures Rem(lay, w) != [] && Rem(lay, w)[0].PairTok? ==>
      w.top.idx < |w.top.list.pairs| && !w.top.list.pairs[w.top.idx].data.ListValue?
    ensures Rem(lay, w) != [] && Rem(lay, w)[0].ListTok? ==>
      w.top.idx < |w.top.list.pairs| && w.top.list.pairs[w.top.idx].data.ListValue?
    ensures Rem(lay, w) != [] && Rem(lay, w)[0].UpTok? ==> w.Above? && w.top.idx >= |w.top.list.pairs|
  {
    if w.top.idx < |w.top.list.pairs| {
      if w.top.list.pairs[w.top.idx].data.ListValue? {
        RemListTokens(lay, w);
      } else {
        RemPair(lay, w);
      }
    } else if w.Above? {
      RemUp(lay, w);
    } else {
      assert Rem(lay, w) == [] + [];
    }
  }

  /** Something remains except at the end of the root level. */
  lemma RemSizePositive(lay: Layout, w: Stack<Frame>)
    requires w.Above? || w.top.idx < |w.top.list.pairs|
    ensures RemSize(lay, w) > 0
  {
  }

  /** `nvlist_size`: walks every pair once, descending into each nested list
      and counting its header and the up record that will close it. The
      list's error is asserted to be 0, as it is in every nested list of a
      well-formed list. */
  method SizeOf(lay: Layout, l: Nvl) returns (r: Outcome<nat>)
    requires ValidList(l)
    ensures r.Abort? <==> l.error != 0
    ensures r.Ret? ==> r.value == Size(lay, l)
  {
    if l.error != 0 {
      return Abort;
    }
    var size := HeaderSize;
    var w := Bottom(Frame(l, 0));
    RemStart(lay, l);
    while true
      invariant size + RemSize(lay, w) == Size(lay, l) + OpenUps(lay, w)
      decreases RemSize(lay, w)
    {
      var f := w.top;
      if f.idx < |f.list.pairs| {
        var p := f.list.pairs[f.idx];
        size := size + RecordSize(lay, p.name);
        if p.data.ListValue? {
          RemList(lay, w);
          AdvanceKeeps(lay, w);
          size := size + HeaderSize + UpSize(lay);
          w := Descend(w);
        } else {
          RemPair(lay, w);
          AdvanceKeeps(lay, w);
          size := size + lay.payload(p.data);
          w := Advance(w);
        }
      } else if w.Bottom? {
        break;
      } else {
        RemUp(lay, w);
        w := w.under;
      }
    }
    r := Ret(size);
  }

  // ---------------------------------------------------------------------
  // Packing (nvlist_xpack, nvlist_pack_buffer)
  // ---------------------------------------------------------------------

  /** The pair types `nvlist_xpack` and `nvlist_xunpack` have a case for.
      The date type, which `nvlist_add_date` creates, is not among them. */
  predicate PackedType(ty: uint8) {
    ty == NvTypeNull || ty == NvTypeBool || ty == NvTypeNumber || ty == NvTypePtr
    || ty == NvTypeUInt64 || ty == NvTypeInt64 || ty == NvTypeEndpoint || ty == NvTypeString
    || IsListType(ty) || ty == NvTypeDescriptor || ty == NvTypeBinary || ty == NvTypeUuid
  }

  /** Every pair of `l`, nested lists included, has a packed type. */
  predicate PackedTypes(l: Nvl)
    decreases l, 1
  {
    PackedTypesFrom(l, 0)
  }

  predicate PackedTypesFrom(l: Nvl, i: nat)
    requires i <= |l.pairs|
    decreases l, 0, |l.pairs| - i
  {
    i == |l.pairs|
    || (PackedType(l.pairs[i].ty)
        && (l.pairs[i].data.ListValue? ==> PackedTypes(l.pairs[i].data.list))
        && PackedTypesFrom(l, i + 1))
  }

  /** The pairs the walk has still to pack all have packed types. */
  predicate LevelsPacked(w: Stack<Frame>) {
    w.top.idx <= |w.top.list.pairs| && PackedTypesFrom(w.top.list, w.top.idx)
    && (w.Above? ==> LevelsPacked(w.under))
  }

  /** Every level is a well-formed list without an error, nested less than
      3 deep. */
  predicate Packable(w: Stack<Frame>) {
    w.top.idx <= |w.top.list.pairs| && Height(w.top.list) < 3
    && w.top.list.error == 0 && ValidList(w.top.list)
    && (w.Above? ==> Packable(w.under))
  }

  /** The top level's next pair, of a well-formed level. */
  lemma NextPairValid(w: Stack<Frame>)
    requires Packable(w) && w.top.idx < |w.top.list.pairs|
    ensures ValidPair(w.top.list.pairs[w.top.idx])
  {
  }

  /** A pair of a type the packer has no case for stops the walk. */
  lemma PackedStop(w: Stack<Frame>)
    requires w.top.idx < |w.top.list.pairs| && !PackedType(w.top.list.pairs[w.top.idx].ty)
    ensures !LevelsPacked(w)
  {
  }

  lemma PackableAdvance(w: Stack<Frame>)
    requires Packable(w) && w.top.idx < |w.top.list.pairs|
    ensures Packable(Advance(w))
  {
  }

  /** A nested list of a packable level is packable: well formed, without
      an error, and less deep. */
  lemma PackableDescend(w: Stack<Frame>)
    requires Packable(w) && w.top.idx < |w.top.list.pairs| && w.top.list.pairs[w.top.idx].data.ListValue?
    ensures Packable(Descend(w))
  {
    NextPairValid(w);
    HeightChild(w.top.list, 0, w.top.idx);
    PackableAdvance(w);
  }

  lemma PackedAdvance(w: Stack<Frame>)
    requires w.top.idx < |w.top.list.pairs| && !w.top.list.pairs[w.top.idx].data.ListValue?
    requires PackedType(w.top.list.pairs[w.top.idx].ty)
    ensures LevelsPacked(Advance(w)) == LevelsPacked(w)
  {
  }

  lemma PackedDescend(w: Stack<Frame>)
    requires w.top.idx < |w.top.list.pairs| && w.top.list.pairs[w.top.idx].data.ListValue?
    requires PackedType(w.top.list.pairs[w.top.idx].ty)
    ensures LevelsPacked(Descend(w)) == LevelsPacked(w)
  {
    var T := w.top.list;
    var i := w.top.idx;
    assert LevelsPacked(Descend(w)) == (PackedTypes(T.pairs[i].data.list) && LevelsPacked(Advance(w)));
    assert LevelsPacked(Advance(w)) == (PackedTypesFrom(T, i + 1) && (w.Above? ==> LevelsPacked(w.under)));
  }

  /** Packing a pair that holds no list: the walk advances and the
      invariants of `Xpack` carry over. */
  lemma PackPairStep(lay: Layout, l: Nvl, out: seq<Tok>, w: Stack<Frame>)
    requires Packable(w) && w.top.idx < |w.top.list.pairs|
    requires !w.top.list.pairs[w.top.idx].data.ListValue? && PackedType(w.top.list.pairs[w.top.idx].ty)
    requires out + Rem(lay, w) == Pack(lay, l)
    ensures var p := w.top.list.pairs[w.top.idx];
      Packable(Advance(w))
      && (out + [PairTok(p.ty, p.name, p.data)]) + Rem(lay, Advance(w)) == Pack(lay, l)
      && RemSize(lay, w) == PairSize(lay, p) + RemSize(lay, Advance(w))
      && LevelsPacked(Advance(w)) == LevelsPacked(w)
  {
    var p := w.top.list.pairs[w.top.idx];
    RemPair(lay, w);
    Assoc(out, [PairTok(p.ty, p.name, p.data)], Rem(lay, Advance(w)));
    PackableAdvance(w);
    PackedAdvance(w);
  }

  /** Packing a pair that holds list `sub`: the walk descends and the
      invariants of `Xpack` carry over. */
  lemma PackListStep(lay: Layout, l: Nvl, out: seq<Tok>, w: Stack<Frame>)
    requires Packable(w) && w.top.idx < |w.top.list.pairs|
    requires w.top.list.pairs[w.top.idx].data.ListValue? && PackedType(w.top.list.pairs[w.top.idx].ty)
    requires out + Rem(lay, w) == Pack(lay, l)
    ensures var p := w.top.list.pairs[w.top.idx];
      var sub := p.data.list;
      Packable(Descend(w))
      && (out + [ListTok(p.ty, p.name),
                 HeaderTok(HeaderBytesOf(FlagsByte(sub.ignoreCase), sub.ty, Descriptors(sub), RemSize(lay, Descend(w))))])
           + Rem(lay, Descend(w)) == Pack(lay, l)
      && RemSize(lay, w) == RecordSize(lay, p.name) + HeaderSize + RemSize(lay, Descend(w))
      && LevelsPacked(Descend(w)) == LevelsPacked(w)
  {
    var p := w.top.list.pairs[w.top.idx];
    var sub := p.data.list;
    RemList(lay, w);
    Assoc(out, [ListTok(p.ty, p.name), HeaderTok(HeaderOf(sub, RemSize(lay, Descend(w))))], Rem(lay, Descend(w)));
    PackableDescend(w);
    PackedDescend(w);
  }

  /** Closing a nested level: the walk returns to the level under it. */
  lemma PackUpStep(lay: Layout, l: Nvl, out: seq<Tok>, w: Stack<Frame>)
    requires Packable(w) && w.Above? && w.top.idx == |w.top.list.pairs|
    requires out + Rem(lay, w) == Pack(lay, l)
    ensures Packable(w.under)
      && (out + [UpTok]) + Rem(lay, w.under) == Pack(lay, l)
      && RemSize(lay, w) == UpSize(lay) + RemSize(lay, w.under)
      && LevelsPacked(w.under) == LevelsPacked(w)
  {
    RemUp(lay, w);
    Assoc(out, [UpTok], Rem(lay, w.under));
  }

  /** At the end of the root the whole packed form has been written. */
  lemma PackEnd(lay: Layout, l: Nvl, out: seq<Tok>, w: Stack<Frame>)
    requires w.Bottom? && w.top.idx == |w.top.list.pairs|
    requires out + Rem(lay, w) == Pack(lay, l)
    ensures out == Pack(lay, l)
  {
    assert Rem(lay, w) == [];
  }

  /** `nvlist_xpack` with no descriptor index array: `None` (NULL) for a
      list with an error or for a caller buffer whose size differs from
      `nvlist_size`; otherwise the header and the records in order,
      aborting at the root header when nesting is 3 levels deep or more
      (the descriptor count asserts it) and at the first pair of a type
      the packer has no case for. */
  method Xpack(lay: Layout, l: Nvl, ubufSize: Option<nat>) returns (r: Outcome<Option<seq<Tok>>>)
    requires ValidList(l) && Descriptors(l) == 0
    ensures l.error != 0 ==> r == Ret(None)
    ensures l.error == 0 && ubufSize.Some? && ubufSize.value != Size(lay, l) ==> r == Ret(None)
    ensures l.error == 0 && (ubufSize.None? || ubufSize.value == Size(lay, l)) ==>
      (r.Abort? <==> Height(l) >= 3 || !PackedTypes(l))
      && (r.Ret? ==> r.value == Some(Pack(lay, l)))
  {
    if l.error != 0 {
      return Ret(None);
    }
    var size := SizeOf(lay, l);
    if ubufSize.Some? && ubufSize.value != size.value {
      return Ret(None);
    }
    var nd := Xndescriptors(l, 0);
    if nd.Abort? {
      return Abort;
    }
    var left := size.value;
    var out := [HeaderTok(HeaderBytesOf(FlagsByte(l.ignoreCase), l.ty, nd.value, left - HeaderSize))];
    left := left - HeaderSize;
    RemStart(lay, l);
    var toks := PackWalk(lay, l, out, Bottom(Frame(l, 0)), left);
    r := if toks.Abort? then Abort else Ret(Some(toks.value));
  }

  /** The record loop of `nvlist_xpack`, from walk position `w` with `out`
      written and `left` bytes left: it completes the packed form, or aborts
      exactly when a pair still ahead has a type the packer has no case
      for. */
  method PackWalk(lay: Layout, ghost l: Nvl, out0: seq<Tok>, w0: Stack<Frame>, left0: nat) returns (r: Outcome<seq<Tok>>)
    requires Packable(w0) && out0 + Rem(lay, w0) == Pack(lay, l) && left0 == RemSize(lay, w0)
    ensures r.Abort? <==> !LevelsPacked(w0)
    ensures r.Ret? ==> r.value == Pack(lay, l)
  {
    var out, w, left := out0, w0, left0;
    while true
      invariant Packable(w)
      invariant out + Rem(lay, w) == Pack(lay, l)
      invariant left == RemSize(lay, w)
      invariant LevelsPacked(w0) <==> LevelsPacked(w)
      decreases RemSize(lay, w)
    {
      var f := w.top;
      if f.idx < |f.list.pairs| {
        var p := f.list.pairs[f.idx];
        if !PackedType(p.ty) {
          PackedStop(w);
          return Abort;
        }
        if p.data.ListValue? {
          out, w, left := PackListRecord(lay, l, out, w, left);
        } else {
          PackPairStep(lay, l, out, w);
          out := out + [PairTok(p.ty, p.name, p.data)];
          left := left - PairSize(lay, p);
          w := Advance(w);
        }
      } else if w.Bottom? {
        break;
      } else {
        PackUpStep(lay, l, out, w);
        out := out + [UpTok];
        left := left - UpSize(lay);
        w := w.under;
      }
    }
    PackEnd(lay, l, out, w);
    r := Ret(out);
  }

  /** One step of the record loop of `nvlist_xpack` at a pair holding list
      `sub`: the pair's record, then `sub`'s header, whose descriptor count
      and size come from `sub` and the bytes left; the walk descends. */
  method PackListRecord(lay: Layout, ghost l: Nvl, out0: seq<Tok>, w0: Stack<Frame>, left0: nat)
    returns (out: seq<Tok>, w: Stack<Frame>, left: nat)
    requires Packable(w0) && out0 + Rem(lay, w0) == Pack(lay, l) && left0 == RemSize(lay, w0)
    requires w0.top.idx < |w0.top.list.pairs|
    requires w0.top.list.pairs[w0.top.idx].data.ListValue? && PackedType(w0.top.list.pairs[w0.top.idx].ty)
    ensures w == Descend(w0) && Packable(w) && out + Rem(lay, w) == Pack(lay, l) && left == RemSize(lay, w)
    ensures RemSize(lay, w) < RemSize(lay, w0)
    ensures LevelsPacked(w) == LevelsPacked(w0)
  {
    var p := w0.top.list.pairs[w0.top.idx];
    var sub := p.data.list;
    PackListStep(lay, l, out0, w0);
    var n := Xndescriptors(sub, 0);
    left := left0 - RecordSize(lay, p.name) - HeaderSize;
    out := out0 + [ListTok(p.ty, p.name),
      HeaderTok(HeaderBytesOf(FlagsByte(sub.ignoreCase), sub.ty, n.value, left))];
    w := Descend(w0);
  }

  /** `nvlist_pack_buffer`: `None` with the list's error for a list with an
      error, `None` with `EOPNOTSUPP` for a list holding descriptors, and
      otherwise `nvlist_xpack`. The second result is the errno it sets, 0
      when it sets none. */
  method PackBuffer(lay: Layout, l: Nvl, ubufSize: Option<nat>) returns (r: Outcome<Option<seq<Tok>>>, errno: int)
    requires ValidList(l)
    ensures l.error != 0 ==> r == Ret(None) && errno == l.error
    ensures l.error == 0 && Height(l) >= 3 ==> r.Abort?
    ensures l.error == 0 && Height(l) < 3 && Descriptors(l) > 0 ==> r == Ret(None) && errno == EOPNOTSUPP
    ensures l.error == 0 && Height(l) < 3 && Descriptors(l) == 0 && ubufSize.Some? && ubufSize.value != Size(lay, l) ==>
      r == Ret(None)
    ensures l.error == 0 && Height(l) < 3 && Descriptors(l) == 0 && (ubufSize.None? || ubufSize.value == Size(lay, l)) ==>
      (r.Abort? <==> !PackedTypes(l)) && (r.Ret? ==> r.value == Some(Pack(lay, l)))
  {
    if l.error != 0 {
      return Ret(None), l.error;
    }
    var nd := Xndescriptors(l, 0);
    if nd.Abort? {
      return Abort, 0;
    }
    if nd.value > 0 {
      return Ret(None), EOPNOTSUPP;
    }
    r := Xpack(lay, l, ubufSize);
    errno := 0;
  }
}
