/** The statically allocated connection errors (xpc_error.c): objects of
    the static-error type whose flags field holds a magic ID, turned into a
    real dictionary on demand by `xpc_hydrate_static_error`. */
module XpcError {
  import opened Common
  import opened XpcType
  import opened XpcDictionary

  /** The store of a constant into the 16-bit `xo_flags` field. */
  function Truncate16(x: nat): (r: uint16)
    ensures r < 0x1_0000 && (x < 0x1_0000 ==> r == x)
  {
    x % 0x1_0000
  }

  /** `XPC_MAGIC_DICT_*`: 0x10001, 0x10002 and 0x10003 cast to 16 bits. */
  const InterruptedId: uint16 := Truncate16(0x10001)
  const InvalidId: uint16 := Truncate16(0x10002)
  const TerminationId: uint16 := Truncate16(0x10003)

  /** Truncation keeps the three IDs apart, so an ID names one error. */
  lemma MagicIdsDistinct()
    ensures InterruptedId == 1 && InvalidId == 2 && TerminationId == 3
    ensures InterruptedId != InvalidId && InvalidId != TerminationId && InterruptedId != TerminationId
  {
  }

  /** `_xpc_error_key_description`. xpc.h, which defines
      `XPC_ERROR_KEY_DESCRIPTION`, is not part of this model; the key is
      taken to be this string. */
  const DescriptionKey: string := "XPC_ERROR_DESCRIPTION"

  /** The description of the error a magic ID names; any other ID aborts. */
  function Description(id: uint16): (r: Outcome<string>)
    ensures r.Ret? <==> id == InvalidId || id == InterruptedId || id == TerminationId
    ensures id == InvalidId ==> r == Ret("Connection invalid")
    ensures id == InterruptedId ==> r == Ret("Connection interrupted")
    ensures id == TerminationId ==> r == Ret("Process termination imminent")
  {
    if id == InvalidId then Ret("Connection invalid")
    else if id == InterruptedId then Ret("Connection interrupted")
    else if id == TerminationId then Ret("Process termination imminent")
    else Abort
  }

  /** The three descriptions differ, so the hydrated error tells which
      error occurred. */
  lemma DescriptionsDistinct(a: uint16, b: uint16)
    requires Description(a).Ret? && Description(b).Ret? && a != b
    ensures Description(a) != Description(b)
  {
  }

  /** `xpc_hydrate_static_error`: NULL or an object of another type
      aborts; a known magic ID gives a new dictionary holding its
      description, as a string, under the description key. */
  method Hydrate(input: Object?) returns (r: Outcome<Object>)
    ensures r.Abort? <==> input == null || input.kind != TStaticError || Description(input.flags).Abort?
    ensures r.Ret? ==> fresh(r.value) && r.value.Valid() && r.value.kind == TDictionary && r.value.refcnt == 1
    ensures r.Ret? ==>
      r.value.payload == Dictionary([Entry(DescriptionKey, String(Description(input.flags).value))])
  {
    if input == null || input.kind != TStaticError {
      return Abort;
    }
    var d := Description(input.flags);
    if d.Abort? {
      return Abort;
    }
    assert !Reserved(DescriptionKey) by {
      assert DescriptionKey[0] != ReservedPrefix[0];
    }
    r := DictionaryCreate([DescriptionKey], [String(d.value)]);
    assert InsertAll([DescriptionKey], [String(d.value)]) == [Entry(DescriptionKey, String(d.value))] by {
      assert InsertPrefix([DescriptionKey], [String(d.value)], 0) == [];
    }
  }
}
