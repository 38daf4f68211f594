/** libnv's name/value lists (nvlist.c): an ordered list of uniquely named,
    typed pairs with a sticky error field. A list is a heap object whose
    pairs are updated in place; the lists nested in its pairs are owned by
    those pairs and are held here as values. */
module NvList {
  import opened Common

  // ---------------------------------------------------------------------
  // Type codes and flags. nv.h is not part of this model: the codes below
  // are distinct placeholders that fit in the header's type byte, and the
  // two flag bits are those of FreeBSD's libnv.
  // ---------------------------------------------------------------------

  type uint8 = x: int | 0 <= x < 0x100

  const NvTypeNone: uint8 := 0
  const NvTypeNull: uint8 := 1
  const NvTypeBool: uint8 := 2
  const NvTypeNumber: uint8 := 3
  const NvTypeString: uint8 := 4
  const NvTypeNvlist: uint8 := 5
  const NvTypeDescriptor: uint8 := 6
  const NvTypeBinary: uint8 := 7
  const NvTypeNvlistArray: uint8 := 8
  const NvTypeNvlistDictionary: uint8 := 9
  const NvTypePtr: uint8 := 10
  const NvTypeUInt64: uint8 := 11
  const NvTypeInt64: uint8 := 12
  const NvTypeEndpoint: uint8 := 13
  const NvTypeDate: uint8 := 14
  const NvTypeUuid: uint8 := 15
  const NvTypeFirst: uint8 := NvTypeNull
  const NvTypeLast: uint8 := NvTypeUuid
  /** The pseudo-type of the marker that closes a nested list in a packed
      buffer. */
  const NvTypeNvlistUp: uint8 := 255

  /** `NV_FLAG_IGNORE_CASE`, the only public flag. */
  const NvFlagIgnoreCase: uint8 := 0x01
  /** `NV_FLAG_BIG_ENDIAN`, the only private flag. */
  const NvFlagBigEndian: uint8 := 0x80

  /** The type argument `nvlist_find` and its callers accept. */
  predicate ValidQueryType(ty: uint8) {
    ty == NvTypeNone || NvTypeFirst <= ty <= NvTypeLast
  }

  /** The three pair types whose value is a nested list. */
  predicate IsListType(ty: uint8) {
    ty == NvTypeNvlist || ty == NvTypeNvlistArray || ty == NvTypeNvlistDictionary
  }

  predicate IsNumberType(ty: uint8) {
    ty == NvTypeNumber || ty == NvTypePtr || ty == NvTypeUInt64
    || ty == NvTypeInt64 || ty == NvTypeEndpoint || ty == NvTypeDate
  }

  /** `(flags & ~NV_FLAG_PUBLIC_MASK) == 0` for a C `int`: only 0 and the
      ignore-case bit pass. */
  predicate PublicFlagsOnly(flags: int) {
    flags == 0 || flags == NvFlagIgnoreCase
  }

  // ---------------------------------------------------------------------
  // Values
  // ---------------------------------------------------------------------

  /** The value a pair carries. All six number types hold a `uint64`; binary
      and UUID pairs hold bytes; the three list types hold a list. */
  datatype Data =
    | NoValue
    | BoolValue(b: bool)
    | NumberValue(n: uint64)
    | StringValue(s: string)
    | ListValue(list: Nvl)
    | DescriptorValue(fd: int)
    | BinaryValue(bytes: seq<byte>)

  /** `nvpair_t`: a type code, a name and a value. */
  datatype NvPair = NvPair(ty: uint8, name: string, data: Data)

  /** `nvlist_t` as a value: its error, whether names ignore case, its list
      type and its pairs in insertion order. */
  datatype Nvl = Nvl(error: int, ignoreCase: bool, ty: uint8, pairs: seq<NvPair>)

  /** The value of a pair has the shape its type code announces. */
  predicate DataFits(ty: uint8, d: Data) {
    match d
    case NoValue => ty == NvTypeNull
    case BoolValue(_) => ty == NvTypeBool
    case NumberValue(_) => IsNumberType(ty)
    case StringValue(_) => ty == NvTypeString
    case ListValue(_) => IsListType(ty)
    case DescriptorValue(_) => ty == NvTypeDescriptor
    case BinaryValue(_) => ty == NvTypeBinary || ty == NvTypeUuid
  }

  /** `tolower` of the C locale. */
  function Lower(c: char): char {
    if 'A' <= c <= 'Z' then (c as int + 32) as char else c
  }

  function LowerString(s: string): (r: string)
    ensures |r| == |s| && forall i :: 0 <= i < |s| ==> r[i] == Lower(s[i])
  {
    if s == [] then [] else [Lower(s[0])] + LowerString(s[1..])
  }

  /** `strcasecmp(a, b) == 0` under the ignore-case flag, `strcmp(a, b) == 0`
      otherwise. */
  predicate NameMatches(ignoreCase: bool, a: string, b: string) {
    if ignoreCase then LowerString(a) == LowerString(b) else a == b
  }

  /** No two pairs have matching names. */
  predicate UniqueNames(ignoreCase: bool, ps: seq<NvPair>) {
    forall i, j :: 0 <= i < j < |ps| ==> !NameMatches(ignoreCase, ps[i].name, ps[j].name)
  }

  /** What the list operations maintain: unique names, values that fit their
      types, and nested lists that are themselves well formed and carry no
      error. */
  predicate ValidPairs(ignoreCase: bool, ps: seq<NvPair>)
    decreases ps, 1
  {
    UniqueNames(ignoreCase, ps) && forall i :: 0 <= i < |ps| ==> ValidPair(ps[i])
  }

  predicate ValidPair(p: NvPair)
    decreases p, 0
  {
    DataFits(p.ty, p.data)
    && (p.data.ListValue? ==>
          p.data.list.error == 0 && ValidPairs(p.data.list.ignoreCase, p.data.list.pairs))
  }

  predicate ValidList(l: Nvl) {
    ValidPairs(l.ignoreCase, l.pairs)
  }

  // ---------------------------------------------------------------------
  // Queries on values
  // ---------------------------------------------------------------------

  /** The pair `nvlist_find` accepts: of the requested type (any type for
      `NV_TYPE_NONE`) and with a matching name. */
  predicate Matches(ignoreCase: bool, p: NvPair, ty: uint8, name: string) {
    (ty == NvTypeNone || p.ty == ty) && NameMatches(ignoreCase, p.name, name)
  }

  /** Position of the first accepted pair, or the number of pairs. */
  function FindIndex(l: Nvl, ty: uint8, name: string): (i: nat)
    ensures i <= |l.pairs|
    ensures forall m :: 0 <= m < i ==> !Matches(l.ignoreCase, l.pairs[m], ty, name)
    ensures i < |l.pairs| ==> Matches(l.ignoreCase, l.pairs[i], ty, name)
    decreases |l.pairs|
  {
    if l.pairs == [] then 0
    else if Matches(l.ignoreCase, l.pairs[0], ty, name) then 0
    else 1 + FindIndex(l.(pairs := l.pairs[1..]), ty, name)
  }

  /** `nvlist_exists`: some pair of any type has a matching name. */
  predicate Exists(l: Nvl, name: string) {
    FindIndex(l, NvTypeNone, name) < |l.pairs|
  }

  lemma ExistsIff(l: Nvl, name: string)
    ensures Exists(l, name) <==> exists i :: 0 <= i < |l.pairs| && NameMatches(l.ignoreCase, l.pairs[i].name, name)
  {
    if !Exists(l, name) {
      forall i | 0 <= i < |l.pairs|
        ensures !NameMatches(l.ignoreCase, l.pairs[i].name, name)
      {
        assert !Matches(l.ignoreCase, l.pairs[i], NvTypeNone, name);
      }
    }
  }

  /** The list after `nvlist_move_nvpair(l, p)`: unchanged when its error is
      set; error `EEXIST` and unchanged pairs when the name is taken;
      otherwise `p` appended at the tail. */
  function Moved(l: Nvl, p: NvPair): Nvl {
    if l.error != 0 then l
    else if Exists(l, p.name) then l.(error := EEXIST)
    else l.(pairs := l.pairs + [p])
  }

  /** Moving a pair in keeps names unique and keeps the list well formed. */
  lemma MovedValid(l: Nvl, p: NvPair)
    requires ValidList(l) && ValidPair(p)
    ensures ValidList(Moved(l, p))
  {
    if l.error == 0 && !Exists(l, p.name) {
      var ps := l.pairs + [p];
      ExistsIff(l, p.name);
      forall i, j | 0 <= i < j < |ps|
        ensures !NameMatches(l.ignoreCase, ps[i].name, ps[j].name)
      {
        if j == |l.pairs| {
          NameMatchesSymmetric(l.ignoreCase, ps[i].name, p.name);
        }
      }
    }
  }

  lemma NameMatchesSymmetric(ignoreCase: bool, a: string, b: string)
    ensures NameMatches(ignoreCase, a, b) <==> NameMatches(ignoreCase, b, a)
  {
  }

  /** The error field is sticky: once set, moving pairs in changes nothing,
      and a set error is never cleared. */
  lemma MovedErrorSticky(l: Nvl, p: NvPair)
    ensures l.error != 0 ==> Moved(l, p) == l
    ensures Moved(l, p).error == 0 ==> l.error == 0
    ensures Moved(l, p).error != 0 && l.error == 0 ==> Moved(l, p).error == EEXIST
  {
  }

  /** A successful move adds exactly one pair, at the tail, and can then be
      found under its name. */
  lemma MovedFinds(l: Nvl, p: NvPair)
    requires l.error == 0 && Moved(l, p).error == 0
    ensures Moved(l, p).pairs == l.pairs + [p]
    ensures FindIndex(Moved(l, p), NvTypeNone, p.name) == |l.pairs|
  {
    var m := Moved(l, p);
    ExistsIff(l, p.name);
    forall k | 0 <= k < |l.pairs|
      ensures !Matches(m.ignoreCase, m.pairs[k], NvTypeNone, p.name)
    {
      assert m.pairs[k] == l.pairs[k];
    }
    FindIndexFirst(m, NvTypeNone, p.name, |l.pairs|);
  }

  /** The pairs without the one at position `i`. */
  function RemovedAt(ps: seq<NvPair>, i: nat): (r: seq<NvPair>)
    requires i < |ps|
    ensures |r| == |ps| - 1
    ensures forall m :: 0 <= m < i ==> r[m] == ps[m]
    ensures forall m :: i <= m < |r| ==> r[m] == ps[m + 1]
  {
    ps[..i] + ps[i + 1..]
  }

  lemma RemovedAtValid(ic: bool, ps: seq<NvPair>, i: nat)
    requires i < |ps| && ValidPairs(ic, ps)
    ensures ValidPairs(ic, RemovedAt(ps, i))
  {
    var r := RemovedAt(ps, i);
    forall a, b | 0 <= a < b < |r|
      ensures !NameMatches(ic, r[a].name, r[b].name)
    {
      var a', b' := if a < i then a else a + 1, if b < i then b else b + 1;
      assert r[a] == ps[a'] && r[b] == ps[b'];
    }
    forall m | 0 <= m < |r|
      ensures ValidPair(r[m])
    {
      var m' := if m < i then m else m + 1;
      assert r[m] == ps[m'];
    }
  }

  /** `nvlist_next`: the cookie is the position of the pair returned last
      (NULL before the first call); the result is the next pair's name and
      type with the advanced cookie, or NULL past the last pair. */
  function Next(l: Nvl, cookie: Option<nat>): (r: Option<(string, uint8, nat)>)
    ensures r.Some? <==> (cookie.None? && |l.pairs| > 0) || (cookie.Some? && cookie.value + 1 < |l.pairs|)
    ensures r.Some? ==> (var k := r.value.2;
      k < |l.pairs| && r.value.0 == l.pairs[k].name && r.value.1 == l.pairs[k].ty
      && k == (if cookie.None? then 0 else cookie.value + 1))
  {
    var k := if cookie.None? then 0 else cookie.value + 1;
    if k < |l.pairs| then Some((l.pairs[k].name, l.pairs[k].ty, k)) else None
  }

  /** Following the cookie from NULL visits every pair once, in insertion
      order: after `n` calls it points at the `n`-th pair. */
  lemma {:induction false} NextVisitsInOrder(l: Nvl, n: nat)
    requires n < |l.pairs|
    ensures Walk(l, n) == Some(n)
  {
    if n > 0 {
      NextVisitsInOrder(l, n - 1);
    }
  }

  /** The cookie after `n + 1` calls of `nvlist_next` from NULL. */
  function Walk(l: Nvl, n: nat): Option<nat> {
    var prev := if n == 0 then None else Walk(l, n - 1);
    if n > 0 && prev.None? then None
    else match Next(l, prev)
      case None => None
      case Some(t) => Some(t.2)
  }

  /** Nesting height: 0 for a list without nested lists. */
  function Height(l: Nvl): nat
    decreases l, 1
  {
    HeightFrom(l, 0)
  }

  function HeightFrom(l: Nvl, i: nat): nat
    requires i <= |l.pairs|
    decreases l, 0, |l.pairs| - i
  {
    if i == |l.pairs| then 0
    else
      var here := if l.pairs[i].data.ListValue? then 1 + Height(l.pairs[i].data.list) else 0;
      var rest := HeightFrom(l, i + 1);
      if here < rest then rest else here
  }

  /** Number of descriptor pairs, nested lists included. */
  function Descriptors(l: Nvl): nat
    decreases l, 1
  {
    DescriptorsFrom(l, 0)
  }

  function DescriptorsFrom(l: Nvl, i: nat): nat
    requires i <= |l.pairs|
    decreases l, 0, |l.pairs| - i
  {
    if i == |l.pairs| then 0
    else
      var here := match l.pairs[i].data
        case DescriptorValue(_) => 1
        case ListValue(sub) => Descriptors(sub)
        case _ => 0;
      here + DescriptorsFrom(l, i + 1)
  }

  /** `nvlist_xndescriptors(l, level)`: counts descriptors through nested
      lists, asserting at every list it enters that it has no error and that
      the nesting level is below 3. */
  method Xndescriptors(l: Nvl, level: nat) returns (r: Outcome<nat>)
    requires ValidList(l)
    ensures r.Abort? <==> l.error != 0 || level + Height(l) >= 3
    ensures r.Ret? ==> r.value == Descriptors(l)
    decreases l
  {
    if l.error != 0 || level >= 3 {
      return Abort;
    }
    var ndescs := 0;
    var i := 0;
    while i < |l.pairs|
      invariant 0 <= i <= |l.pairs|
      invariant ndescs == Descriptors(l) - DescriptorsFrom(l, i)
      invariant level + HeightFrom(l, 0) >= 3 <==> level + HeightFrom(l, i) >= 3
    {
      match l.pairs[i].data {
        case DescriptorValue(_) =>
          ndescs := ndescs + 1;
        case ListValue(sub) =>
          assert ValidPair(l.pairs[i]);
          var n := Xndescriptors(sub, level + 1);
          if n.Abort? {
            return Abort;
          }
          ndescs := ndescs + n.value;
        case _ =>
      }
      i := i + 1;
    }
    r := Ret(ndescs);
  }

  // ---------------------------------------------------------------------
  // The list object
  // ---------------------------------------------------------------------

  class NvList {
    var error: int
    var ignoreCase: bool
    var ty: uint8
    var pairs: seq<NvPair>

    /** The list as a value. */
    function Value(): Nvl
      reads this
    {
      Nvl(error, ignoreCase, ty, pairs)
    }

    ghost predicate Valid()
      reads this
    {
      ValidPairs(ignoreCase, pairs)
    }

    /** The state every `nvlist_create*` variant sets up: no error, no
        parent, no pairs. */
    constructor Init(ic: bool, t: uint8)
      ensures Valid() && error == 0 && ignoreCase == ic && ty == t && pairs == []
    {
      error := 0;
      ignoreCase := ic;
      ty := t;
      pairs := [];
    }

    /** `nvlist_find` over the pairs in insertion order; aborts on a list
        with an error or a type outside the valid range. */
    method Find(t: uint8, name: string) returns (r: Outcome<Option<nat>>)
      ensures r.Abort? <==> error != 0 || !ValidQueryType(t)
      ensures r.Ret? ==> (var i := FindIndex(Value(), t, name);
        r.value == (if i < |pairs| then Some(i) else None))
    {
      if error != 0 || !ValidQueryType(t) {
        return Abort;
      }
      var i := 0;
      while i < |pairs|
        invariant 0 <= i <= |pairs|
        invariant forall m :: 0 <= m < i ==> !Matches(ignoreCase, pairs[m], t, name)
      {
        if Matches(ignoreCase, pairs[i], t, name) {
          FindIndexFirst(Value(), t, name, i);
          return Ret(Some(i));
        }
        i := i + 1;
      }
      FindIndexNone(Value(), t, name);
      r := Ret(None);
    }

    /** `nvlist_move_nvpair`: on a list with an error the pair is dropped;
        a taken name sets `EEXIST`; otherwise the pair goes to the tail. */
    method MovePair(p: NvPair)
      requires Valid() && ValidPair(p)
      modifies this
      ensures Valid() && Value() == Moved(old(Value()), p)
    {
      MovedValid(Value(), p);
      if error != 0 {
        return;
      }
      var found := Find(NvTypeNone, p.name);
      if found.value.Some? {
        error := EEXIST;
        return;
      }
      pairs := pairs + [p];
    }

    /** `nvlist_add_nvpair`: as a move of a copy of `p`. */
    method AddPair(p: NvPair)
      requires Valid() && ValidPair(p)
      modifies this
      ensures Valid() && Value() == Moved(old(Value()), p)
    {
      if error != 0 {
        return;
      }
      MovePair(p);
    }

    /** The `nvlist_add_*` and `nvlist_move_*` family: nothing on a list with
        an error, otherwise a new pair of the given type moved in. */
    method Add(t: uint8, name: string, d: Data)
      requires Valid() && ValidPair(NvPair(t, name, d))
      modifies this
      ensures Valid() && Value() == Moved(old(Value()), NvPair(t, name, d))
    {
      if error != 0 {
        return;
      }
      MovePair(NvPair(t, name, d));
    }

    /** `nvlist_get_*`: the value of the first accepted pair; a missing pair
        aborts. */
    method Get(t: uint8, name: string) returns (r: Outcome<Data>)
      ensures var i := FindIndex(Value(), t, name);
        r.Abort? <==> error != 0 || !ValidQueryType(t) || i == |pairs|
      ensures r.Ret? ==> (var i := FindIndex(Value(), t, name);
        r.value == pairs[i].data && (t == NvTypeNone || pairs[i].ty == t))
    {
      var found := Find(t, name);
      if found.Abort? || found.value.None? {
        return Abort;
      }
      r := Ret(pairs[found.value.value].data);
    }

    /** `nvlist_take_*`: returns the value of the first accepted pair and
        removes exactly that pair; a missing pair aborts. */
    method Take(t: uint8, name: string) returns (r: Outcome<Data>)
      requires Valid()
      modifies this
      ensures Valid()
      ensures var i := FindIndex(old(Value()), t, name);
        r.Abort? <==> old(error) != 0 || !ValidQueryType(t) || i == old(|pairs|)
      ensures r.Abort? ==> Value() == old(Value())
      ensures r.Ret? ==> (var i := FindIndex(old(Value()), t, name);
        r.value == old(pairs)[i].data && pairs == RemovedAt(old(pairs), i)
        && error == old(error) && ignoreCase == old(ignoreCase) && ty == old(ty))
    {
      var found := Find(t, name);
      if found.Abort? || found.value.None? {
        return Abort;
      }
      var i := found.value.value;
      r := Ret(pairs[i].data);
      RemovedAtValid(ignoreCase, pairs, i);
      pairs := RemovedAt(pairs, i);
    }

    /** `nvlist_free_type`: removes the first accepted pair; a missing pair
        aborts. */
    method FreeType(t: uint8, name: string) returns (r: Outcome<()>)
      requires Valid()
      modifies this
      ensures Valid()
      ensures var i := FindIndex(old(Value()), t, name);
        r.Abort? <==> old(error) != 0 || !ValidQueryType(t) || i == old(|pairs|)
      ensures r.Abort? ==> Value() == old(Value())
      ensures r.Ret? ==> (var i := FindIndex(old(Value()), t, name);
        pairs == RemovedAt(old(pairs), i)
        && error == old(error) && ignoreCase == old(ignoreCase) && ty == old(ty))
    {
      var found := Find(t, name);
      if found.Abort? || found.value.None? {
        return Abort;
      }
      RemovedAtValid(ignoreCase, pairs, found.value.value);
      pairs := RemovedAt(pairs, found.value.value);
      r := Ret(());
    }
  }

  lemma FindIndexFirst(l: Nvl, t: uint8, name: string, i: nat)
    requires i < |l.pairs| && Matches(l.ignoreCase, l.pairs[i], t, name)
    requires forall m :: 0 <= m < i ==> !Matches(l.ignoreCase, l.pairs[m], t, name)
    ensures FindIndex(l, t, name) == i
  {
  }

  lemma FindIndexNone(l: Nvl, t: uint8, name: string)
    requires forall m :: 0 <= m < |l.pairs| ==> !Matches(l.ignoreCase, l.pairs[m], t, name)
    ensures FindIndex(l, t, name) == |l.pairs|
  {
  }

  /** `nvlist_create`, `nvlist_create_array`, `nvlist_create_dictionary`:
      a fresh empty list of the requested type with no error; flags other
      than the public ignore-case bit abort. */
  method Create(flags: int, t: uint8) returns (r: Outcome<NvList>)
    requires t == NvTypeNvlist || t == NvTypeNvlistArray || t == NvTypeNvlistDictionary
    ensures r.Abort? <==> !PublicFlagsOnly(flags)
    ensures r.Ret? ==>
      fresh(r.value) && r.value.Valid() && r.value.Value() == Nvl(0, flags == NvFlagIgnoreCase, t, [])
  {
    if !PublicFlagsOnly(flags) {
      return Abort;
    }
    var l := new NvList.Init(flags == NvFlagIgnoreCase, t);
    r := Ret(l);
  }

  /** `nvlist_set_error`: a zero error aborts; otherwise only the first
      non-zero error is recorded, and a NULL list is left alone. */
  method SetError(nvl: NvList?, e: int) returns (r: Outcome<()>)
    modifies nvl
    ensures r.Abort? <==> e == 0
    ensures nvl != null && r.Ret? ==> nvl.error == (if old(nvl.error) == 0 then e else old(nvl.error))
    ensures nvl != null ==>
      nvl.pairs == old(nvl.pairs) && nvl.ty == old(nvl.ty) && nvl.ignoreCase == old(nvl.ignoreCase)
    ensures nvl != null && old(nvl.error) != 0 ==> nvl.error == old(nvl.error)
  {
    if e == 0 {
      return Abort;
    }
    if nvl != null && nvl.error == 0 {
      nvl.error := e;
    }
    r := Ret(());
  }

  /** `nvlist_error`: `ENOMEM` for a NULL list. */
  function Error(nvl: NvList?): (e: int)
    reads nvl
    ensures nvl == null ==> e == ENOMEM
    ensures nvl != null ==> e == nvl.error
  {
    if nvl == null then ENOMEM else nvl.error
  }

  /** `nvlist_clone`: NULL for a list with an error; otherwise a fresh list
      with the same flags and type into which every pair is moved in order,
      which reproduces the list exactly. */
  method Clone(nvl: NvList) returns (r: Option<NvList>)
    requires nvl.Valid()
    ensures r.None? <==> nvl.error != 0
    ensures r.Some? ==> fresh(r.value) && r.value.Valid() && r.value.Value() == nvl.Value()
  {
    if nvl.error != 0 {
      return None;
    }
    var c := new NvList.Init(nvl.ignoreCase, nvl.ty);
    var i := 0;
    while i < |nvl.pairs|
      invariant 0 <= i <= |nvl.pairs|
      invariant c.Valid() && c.Value() == nvl.Value().(pairs := nvl.pairs[..i])
      modifies c
    {
      CloneStep(nvl.Value(), i);
      c.MovePair(nvl.pairs[i]);
      assert nvl.pairs[..i + 1] == nvl.pairs[..i] + [nvl.pairs[i]];
      i := i + 1;
    }
    assert nvl.pairs[..i] == nvl.pairs;
    r := Some(c);
  }

  /** Moving the next pair of a well formed list into a copy of its prefix
      appends it: its name cannot be taken by an earlier pair. */
  lemma CloneStep(l: Nvl, i: nat)
    requires ValidList(l) && l.error == 0 && i < |l.pairs|
    ensures ValidPair(l.pairs[i])
    ensures Moved(l.(pairs := l.pairs[..i]), l.pairs[i]) == l.(pairs := l.pairs[..i] + [l.pairs[i]])
  {
    FreshName(l, i);
  }

  /** In a well formed list no pair's name is taken by an earlier pair. */
  lemma FreshName(l: Nvl, i: nat)
    requires ValidList(l) && i < |l.pairs|
    ensures !Exists(l.(pairs := l.pairs[..i]), l.pairs[i].name)
  {
    var pre := l.(pairs := l.pairs[..i]);
    forall m | 0 <= m < i
      ensures !NameMatches(l.ignoreCase, pre.pairs[m].name, l.pairs[i].name)
    {
      assert pre.pairs[m] == l.pairs[m];
    }
    ExistsIff(pre, l.pairs[i].name);
  }

  /** A nested list is less deep than the list that holds it. */
  lemma {:induction false} HeightChild(l: Nvl, j: nat, i: nat)
    requires j <= i < |l.pairs| && l.pairs[i].data.ListValue?
    ensures 1 + Height(l.pairs[i].data.list) <= HeightFrom(l, j)
    decreases i - j
  {
    if j < i {
      HeightChild(l, j + 1, i);
    }
  }
}
