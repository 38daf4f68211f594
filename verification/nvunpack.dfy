/** Unpacking (nvlist_xunpack in nvlist.c): the records of a packed buffer
    are read in order into a fresh list, descending into each nested list
    after its header and climbing back at each up record.

    Record decoding belongs to nvpair.c, which is not part of this model:
    the buffer is the token sequence of `NvCodec`, and a token of the wrong
    kind where a header or a record is due counts as a record that fails to
    decode, which aborts. */
module NvUnpack {
  import opened Common
  import opened NvList
  import opened NvCodec

  // ---------------------------------------------------------------------
  // The lists under construction
  // ---------------------------------------------------------------------

  /** The list a nested list lives in, with its last pair (the one that
      holds the nested list) now holding `child`. `nvlist_xunpack` fills a
      nested list in place after moving it into its parent; the model fills
      it on the stack and attaches it here. */
  function Attach(parent: Nvl, child: Nvl): (r: Nvl)
    ensures r.error == parent.error && r.ignoreCase == parent.ignoreCase && r.ty == parent.ty
    ensures |r.pairs| == |parent.pairs|
    ensures |parent.pairs| > 0 ==>
      (r.pairs[|r.pairs| - 1].data == ListValue(child)
       && r.pairs[|r.pairs| - 1].name == parent.pairs[|parent.pairs| - 1].name
       && r.pairs[|r.pairs| - 1].ty == parent.pairs[|parent.pairs| - 1].ty)
    ensures forall k :: 0 <= k < |r.pairs| - 1 ==> r.pairs[k] == parent.pairs[k]
  {
    if |parent.pairs| == 0 then parent
    else
      var k := |parent.pairs| - 1;
      parent.(pairs := parent.pairs[k := parent.pairs[k].(data := ListValue(child))])
  }

  function ReplaceTop<T>(s: Stack<T>, t: T): (r: Stack<T>)
    ensures r.top == t && Depth(r) == Depth(s)
  {
    match s
    case Bottom(_) => Bottom(t)
    case Above(_, u) => Above(t, u)
  }

  /** The list `nvlist_xunpack` returns: the root, with each open nested
      list attached to the pair that holds it. */
  function Collapse(s: Stack<Nvl>): Nvl
    decreases Depth(s)
  {
    match s
    case Bottom(l) => l
    case Above(c, u) => Collapse(ReplaceTop(u, Attach(u.top, c)))
  }

  // ---------------------------------------------------------------------
  // Unpacking the packed form of a list
  // ---------------------------------------------------------------------

  /** The part of a level that has been read: its pairs before `idx`. */
  function Prefix(f: Frame): Nvl {
    if f.idx <= |f.list.pairs| then f.list.(pairs := f.list.pairs[..f.idx]) else f.list
  }

  /** Each list under construction below the top is the read part of its
      level once the nested list it is filling is attached. */
  predicate Links(b: Stack<Nvl>, w: Stack<Frame>) {
    match w
    case Bottom(_) => b.Bottom?
    case Above(f, u) => b.Above? && Attach(b.under.top, f.list) == Prefix(u.top) && Links(b.under, u)
  }

  /** Every level of the walk is a well-formed list without an error, with
      packed types from its position on and no more descriptors than were
      received. */
  predicate Walkable(w: Stack<Frame>, nfds: nat) {
    w.top.idx <= |w.top.list.pairs| && w.top.list.error == 0 && ValidList(w.top.list)
    && PackedTypesFrom(w.top.list, w.top.idx) && Descriptors(w.top.list) <= nfds
    && (w.Above? ==> Walkable(w.under, nfds))
  }

  /** The list at the bottom of a walk. */
  function Root(w: Stack<Frame>): Nvl {
    match w
    case Bottom(f) => f.list
    case Above(_, u) => Root(u)
  }

  /** While unpacking the packed form of `target`, token `i` is next, the
      walk over `target` stands at `w`, and the lists under construction
      hold what has been read. */
  predicate Walking(lay: Layout, target: Nvl, nfds: nat, toks: seq<Tok>, i: nat, w: Stack<Frame>, built: Stack<Nvl>) {
    i <= |toks| && toks[i..] == Rem(lay, w) && built.top == Prefix(w.top) && Links(built, w)
    && Walkable(w, nfds) && Root(w) == target && RemSize(lay, w) < Two64 && nfds < Two64
  }

  lemma Drop1<X>(s: seq<X>, i: nat, a: X, rest: seq<X>)
    requires i <= |s| && s[i..] == [a] + rest
    ensures i < |s| && s[i] == a && s[i + 1..] == rest
  {
    assert s[i..][0] == a;
    assert s[i..][1..] == s[i + 1..];
  }

  lemma Drop2<X>(s: seq<X>, i: nat, a: X, b: X, rest: seq<X>)
    requires i <= |s| && s[i..] == [a, b] + rest
    ensures i + 1 < |s| && s[i] == a && s[i + 1] == b && s[i + 2..] == rest
  {
    assert s[i..][0] == a && s[i..][1] == b;
    assert s[i..][2..] == s[i + 2..];
  }

  /** The bytes from token `i` on: token `i`'s, then the rest. */
  lemma BytesStep(lay: Layout, toks: seq<Tok>, i: nat)
    requires i < |toks|
    ensures TokBytes(lay, toks[i..]) == TokSize(lay, toks[i]) + TokBytes(lay, toks[i + 1..])
  {
    assert toks[i..][0] == toks[i];
    assert toks[i..][1..] == toks[i + 1..];
  }

  /** A nested list holds no more descriptors than the list it is in. */
  lemma {:induction false} DescriptorsChild(l: Nvl, j: nat, i: nat)
    requires j <= i < |l.pairs| && l.pairs[i].data.ListValue?
    ensures Descriptors(l.pairs[i].data.list) <= DescriptorsFrom(l, j)
    decreases i - j
  {
    if j < i {
      DescriptorsChild(l, j + 1, i);
    }
  }

  lemma LinksReplace(b: Stack<Nvl>, w: Stack<Frame>, x: Nvl)
    requires Links(b, w)
    ensures Links(ReplaceTop(b, x), w)
  {
  }

  /** Reading a pair of the top level moves the walk on without changing
      the levels under it. */
  lemma AdvanceWalk(b: Stack<Nvl>, w: Stack<Frame>, x: Nvl, nfds: nat)
    requires Links(b, w) && Walkable(w, nfds) && w.top.idx < |w.top.list.pairs|
    ensures Links(ReplaceTop(b, x), Advance(w)) && Walkable(Advance(w), nfds) && Root(Advance(w)) == Root(w)
  {
  }

  /** A list that gains the next pair of a level whose read part it holds
      holds one more pair of it. */
  lemma MovedNext(top: Nvl, f: Frame)
    requires top == Prefix(f) && f.idx < |f.list.pairs| && f.list.error == 0 && ValidList(f.list)
    ensures Moved(top, f.list.pairs[f.idx]) == Prefix(Frame(f.list, f.idx + 1))
  {
    FreshName(f.list, f.idx);
    assert f.list.pairs[..f.idx] + [f.list.pairs[f.idx]] == f.list.pairs[..f.idx + 1];
  }

  lemma AttachLast(pre: Nvl, q: NvPair, child: Nvl)
    ensures Attach(pre.(pairs := pre.pairs + [q]), child) == pre.(pairs := pre.pairs + [q.(data := ListValue(child))])
  {
    assert (pre.pairs + [q])[|pre.pairs| := q.(data := ListValue(child))] == pre.pairs + [q.(data := ListValue(child))];
  }

  /** The header of a nested list, read back, gives that list emptied. */
  lemma NestedHeader(sub: Nvl, size: nat, nfds: nat)
    requires sub.error == 0 && Descriptors(sub) <= nfds < Two64 && size < Two64
    ensures UnpackHeader(HeaderOf(sub, size), HeaderSize + size, nfds).Ret?
    ensures HeaderList(UnpackHeader(HeaderOf(sub, size), HeaderSize + size, nfds).value) == Prefix(Frame(sub, 0))
  {
    CheckHeaderRoundTrip(sub, size);
    FlagsByteFacts(sub.ignoreCase);
  }

  /** The packed form starts with a header that passes the checks, and the
      records that follow are the walk over the whole list. */
  lemma UnpackStart(lay: Layout, target: Nvl, nfds: nat)
    requires Unpacks(lay, target, nfds)
    ensures var toks := Pack(lay, target);
      toks != [] && toks[0].HeaderTok?
      && UnpackHeader(toks[0].raw, TokBytes(lay, toks), nfds).Ret?
      && Walking(lay, target, nfds, toks, 1, Bottom(Frame(target, 0)),
           Bottom(HeaderList(UnpackHeader(toks[0].raw, TokBytes(lay, toks), nfds).value)))
  {
    var toks := Pack(lay, target);
    var w := Bottom(Frame(target, 0));
    RemStart(lay, target);
    PackSize(lay, target);
    NestedHeader(target, RemSize(lay, w), nfds);
    Drop1(toks, 0, toks[0], Rem(lay, w));
  }

  /** No header comes where a record is due. */
  lemma NextNotHeader(lay: Layout, target: Nvl, nfds: nat, toks: seq<Tok>, i: nat, w: Stack<Frame>, built: Stack<Nvl>)
    requires i < |toks|
    ensures Walking(lay, target, nfds, toks, i, w, built) ==> !toks[i].HeaderTok?
  {
    if Walking(lay, target, nfds, toks, i, w, built) {
      RemKinds(lay, w);
      assert toks[i..][0] == toks[i];
    }
  }

  /** A pair token is the next pair of the top level, which holds no list:
      it passes the checks and is added to the list being read. */
  lemma UnpackPairStep(lay: Layout, target: Nvl, nfds: nat, toks: seq<Tok>, i: nat, w: Stack<Frame>, built: Stack<Nvl>)
    returns (w': Stack<Frame>)
    requires Walking(lay, target, nfds, toks, i, w, built) && i < |toks| && toks[i].PairTok?
    ensures ScalarRecord(toks[i].ty, toks[i].data)
    ensures Walking(lay, target, nfds, toks, i + 1, w',
      ReplaceTop(built, Moved(built.top, NvPair(toks[i].ty, toks[i].name, toks[i].data))))
  {
    RemKinds(lay, w);
    assert toks[i..][0] == toks[i];
    var p := w.top.list.pairs[w.top.idx];
    RemPair(lay, w);
    Drop1(toks, i, toks[i], Rem(lay, Advance(w)));
    assert ValidPair(p);
    w' := Advance(w);
    MovedNext(built.top, w.top);
    AdvanceWalk(built, w, Moved(built.top, p), nfds);
  }

  /** Descending into the nested list of the next pair keeps every level
      walkable. */
  lemma DescendWalk(w: Stack<Frame>, nfds: nat)
    requires Walkable(w, nfds) && w.top.idx < |w.top.list.pairs| && w.top.list.pairs[w.top.idx].data.ListValue?
    ensures Walkable(Descend(w), nfds) && Root(Descend(w)) == Root(w)
  {
    var T := w.top.list;
    var i := w.top.idx;
    assert ValidPair(T.pairs[i]);
    assert PackedTypesFrom(T, i) == (PackedType(T.pairs[i].ty) && PackedTypes(T.pairs[i].data.list) && PackedTypesFrom(T, i + 1));
    DescriptorsChild(T, 0, i);
  }

  /** The tokens of a pair holding a list: its record, then the nested
      header, which passes the checks and gives the nested list emptied. */
  lemma ListTokens(lay: Layout, nfds: nat, toks: seq<Tok>, i: nat, w: Stack<Frame>)
    requires i <= |toks| && toks[i..] == Rem(lay, w) && Walkable(w, nfds) && RemSize(lay, w) < Two64 && nfds < Two64
    requires w.top.idx < |w.top.list.pairs| && w.top.list.pairs[w.top.idx].data.ListValue?
    ensures var p := w.top.list.pairs[w.top.idx];
      i + 1 < |toks| && toks[i] == ListTok(p.ty, p.name) && IsListType(p.ty) && toks[i + 1].HeaderTok?
      && toks[i + 2..] == Rem(lay, Descend(w)) && RemSize(lay, Descend(w)) < RemSize(lay, w)
      && UnpackHeader(toks[i + 1].raw, TokBytes(lay, toks[i + 1..]), nfds).Ret?
      && HeaderList(UnpackHeader(toks[i + 1].raw, TokBytes(lay, toks[i + 1..]), nfds).value) == Prefix(Frame(p.data.list, 0))
  {
    var T := w.top.list;
    var p := T.pairs[w.top.idx];
    RemList(lay, w);
    Drop2(toks, i, toks[i], toks[i + 1], Rem(lay, Descend(w)));
    assert ValidPair(p);
    BytesStep(lay, toks, i + 1);
    RemBytes(lay, Descend(w));
    DescriptorsChild(T, 0, w.top.idx);
    NestedHeader(p.data.list, RemSize(lay, Descend(w)), nfds);
  }

  /** Moving the pair with the emptied nested list into the list being
      read, and reading on in the nested list, keeps the lists under
      construction in step with the walk. */
  lemma ListBuilt(built: Stack<Nvl>, w: Stack<Frame>, empty: Nvl, nfds: nat)
    requires built.top == Prefix(w.top) && Links(built, w) && Walkable(w, nfds)
    requires w.top.idx < |w.top.list.pairs| && w.top.list.pairs[w.top.idx].data.ListValue?
    requires empty == Prefix(Frame(w.top.list.pairs[w.top.idx].data.list, 0))
    ensures var p := w.top.list.pairs[w.top.idx];
      var b' := Above(empty, ReplaceTop(built, Moved(built.top, NvPair(p.ty, p.name, ListValue(empty)))));
      built.top.error == 0 && !Exists(built.top, p.name)
      && b'.top == Prefix(Descend(w).top) && Links(b', Descend(w))
  {
    var T := w.top.list;
    var p := T.pairs[w.top.idx];
    var q := NvPair(p.ty, p.name, ListValue(empty));
    FreshName(T, w.top.idx);
    AttachLast(built.top, q, p.data.list);
    assert T.pairs[..w.top.idx] + [p] == T.pairs[..w.top.idx + 1];
    AdvanceWalk(built, w, Moved(built.top, q), nfds);
  }

  /** A list token is the next pair of the top level, which holds a list:
      the nested header follows and passes the checks, the pair moves into
      the list being read, and reading goes on in the nested list. */
  lemma UnpackListStep(lay: Layout, target: Nvl, nfds: nat, toks: seq<Tok>, i: nat, w: Stack<Frame>, built: Stack<Nvl>)
    returns (w': Stack<Frame>)
    requires Walking(lay, target, nfds, toks, i, w, built) && i < |toks| && toks[i].ListTok?
    ensures IsListType(toks[i].ty) && i + 1 < |toks| && toks[i + 1].HeaderTok?
    ensures built.top.error == 0 && !Exists(built.top, toks[i].name)
    ensures UnpackHeader(toks[i + 1].raw, TokBytes(lay, toks[i + 1..]), nfds).Ret?
    ensures var sub := HeaderList(UnpackHeader(toks[i + 1].raw, TokBytes(lay, toks[i + 1..]), nfds).value);
      Walking(lay, target, nfds, toks, i + 2, w',
        Above(sub, ReplaceTop(built, Moved(built.top, NvPair(toks[i].ty, toks[i].name, ListValue(sub))))))
  {
    RemKinds(lay, w);
    assert toks[i..][0] == toks[i];
    ListTokens(lay, nfds, toks, i, w);
    var empty := HeaderList(UnpackHeader(toks[i + 1].raw, TokBytes(lay, toks[i + 1..]), nfds).value);
    ListBuilt(built, w, empty, nfds);
    DescendWalk(w, nfds);
    w' := Descend(w);
  }

  /** An up token ends a nested level, which has been read in full: it is
      attached to its pair, and reading goes on in the level under it. */
  lemma UnpackUpStep(lay: Layout, target: Nvl, nfds: nat, toks: seq<Tok>, i: nat, w: Stack<Frame>, built: Stack<Nvl>)
    returns (w': Stack<Frame>)
    requires Walking(lay, target, nfds, toks, i, w, built) && i < |toks| && toks[i].UpTok?
    ensures built.Above?
    ensures Walking(lay, target, nfds, toks, i + 1, w', ReplaceTop(built.under, Attach(built.under.top, built.top)))
  {
    RemKinds(lay, w);
    assert toks[i..][0] == toks[i];
    RemUp(lay, w);
    Drop1(toks, i, UpTok, Rem(lay, w.under));
    w' := w.under;
    assert w.top.list.pairs[..w.top.idx] == w.top.list.pairs;
    LinksReplace(built.under, w.under, Attach(built.under.top, built.top));
  }

  /** When no bytes are left the walk has reached the end of the root and
      the list read is the packed list. */
  lemma UnpackEnd(lay: Layout, target: Nvl, nfds: nat, toks: seq<Tok>, i: nat, w: Stack<Frame>, built: Stack<Nvl>)
    requires Walking(lay, target, nfds, toks, i, w, built) && TokBytes(lay, toks[i..]) == 0
    ensures Collapse(built) == target
  {
    RemKinds(lay, w);
    assert w.top.list.pairs[..w.top.idx] == w.top.list.pairs;
  }

  // ---------------------------------------------------------------------
  // nvlist_xunpack
  // ---------------------------------------------------------------------

  /** A record `nvlist_xunpack` has a case for that holds no list, with a
      value of the shape its type announces. */
  predicate ScalarRecord(ty: uint8, data: Data) {
    PackedType(ty) && !IsListType(ty) && DataFits(ty, data)
  }

  /** The lists `nvlist_xunpack` can return exactly as they were packed:
      well formed, without an error, of types it has a case for, with no
      more descriptors than were received, and with sizes that fit the
      64-bit header fields. */
  predicate Unpacks(lay: Layout, l: Nvl, nfds: nat) {
    ValidList(l) && l.error == 0 && PackedTypes(l)
    && Descriptors(l) <= nfds < Two64 && Size(lay, l) < Two64
  }

  /** The case of the record loop of `nvlist_xunpack` for a record `name`
      holding a nested list: it aborts on a type that is not a list type,
      when no header that passes the header checks follows, and when the
      list being read has an error or already holds `name` (the nested list
      is freed and the records that follow would be read into it);
      otherwise the header starts a new, empty list one level up. */
  method ReadListRecord(lay: Layout, toks: seq<Tok>, nfds: nat, ghost target: Nvl, ghost rt: bool,
                        i: nat, built: Stack<Nvl>, ghost w: Stack<Frame>)
    returns (r: Outcome<Stack<Nvl>>, ghost w': Stack<Frame>)
    requires i < |toks| && toks[i].ListTok?
    requires rt ==> Walking(lay, target, nfds, toks, i, w, built)
    ensures r.Ret? ==> i + 1 < |toks| && toks[i + 1].HeaderTok?
    ensures rt ==> r.Ret? && Walking(lay, target, nfds, toks, i + 2, w', r.value)
  {
    var ty, name := toks[i].ty, toks[i].name;
    w' := w;
    if rt {
      w' := UnpackListStep(lay, target, nfds, toks, i, w, built);
    }
    if !IsListType(ty) {
      return Abort, w';
    }
    if i + 1 == |toks| || !toks[i + 1].HeaderTok? {
      return Abort, w';
    }
    BytesStep(lay, toks, i);
    var hs := UnpackHeader(toks[i + 1].raw, TokBytes(lay, toks[i + 1..]), nfds);
    if hs.Abort? {
      return Abort, w';
    }
    if built.top.error != 0 || Exists(built.top, name) {
      // The pair and its nested list are freed, and the records that
      // follow would be read into the freed list.
      return Abort, w';
    }
    var sub := HeaderList(hs.value);
    r := Ret(Above(sub, ReplaceTop(built, Moved(built.top, NvPair(ty, name, ListValue(sub))))));
  }

  /** `nvlist_xunpack` without descriptors: aborts when the buffer does not
      start with a header that passes the header checks, and returns the
      list read from the records otherwise. On the packed form of a list
      that it can unpack, it returns that list. */
  method Xunpack(lay: Layout, toks: seq<Tok>, nfds: nat, ghost target: Nvl) returns (r: Outcome<Nvl>)
    ensures toks == [] || !toks[0].HeaderTok? ==> r.Abort?
    ensures toks != [] && toks[0].HeaderTok? && UnpackHeader(toks[0].raw, TokBytes(lay, toks), nfds).Abort? ==> r.Abort?
    ensures Unpacks(lay, target, nfds) && toks == Pack(lay, target) ==> r == Ret(target)
  {
    ghost var rt := Unpacks(lay, target, nfds) && toks == Pack(lay, target);
    if toks == [] || !toks[0].HeaderTok? {
      if rt {
        UnpackStart(lay, target, nfds);
      }
      return Abort;
    }
    var h := UnpackHeader(toks[0].raw, TokBytes(lay, toks), nfds);
    if rt {
      UnpackStart(lay, target, nfds);
    }
    if h.Abort? {
      return Abort;
    }
    var built := Bottom(HeaderList(h.value));
    var left := TokBytes(lay, toks) - HeaderSize;
    var i := 1;
    ghost var w := Bottom(Frame(target, 0));
    while left > 0
      invariant 1 <= i <= |toks|
      invariant left == TokBytes(lay, toks[i..])
      invariant left <= TokBytes(lay, toks)
      invariant rt ==> Walking(lay, target, nfds, toks, i, w, built)
      decreases left
    {
      BytesStep(lay, toks, i);
      var t := toks[i];
      match t
      case HeaderTok(_) =>
        NextNotHeader(lay, target, nfds, toks, i, w, built);
        return Abort;
      case PairTok(ty, name, data) =>
        ghost var w' := w;
        if rt {
          w' := UnpackPairStep(lay, target, nfds, toks, i, w, built);
        }
        if !ScalarRecord(ty, data) {
          return Abort;
        }
        built := ReplaceTop(built, Moved(built.top, NvPair(ty, name, data)));
        left := left - TokSize(lay, t);
        i := i + 1;
        w := w';
      case ListTok(ty, name) =>
        var step;
        ghost var w';
        step, w' := ReadListRecord(lay, toks, nfds, target, rt, i, built, w);
        if step.Abort? {
          return Abort;
        }
        BytesStep(lay, toks, i + 1);
        left := left - TokSize(lay, t) - HeaderSize;
        i, built := i + 2, step.value;
        w := w';
      case UpTok =>
        ghost var w' := w;
        if rt {
          w' := UnpackUpStep(lay, target, nfds, toks, i, w, built);
        }
        if built.Bottom? {
          return Abort;
        }
        built := ReplaceTop(built.under, Attach(built.under.top, built.top));
        left := left - TokSize(lay, t);
        i := i + 1;
        w := w';
    }
    if rt {
      UnpackEnd(lay, target, nfds, toks, i, w, built);
    }
    r := Ret(Collapse(built));
  }
}
