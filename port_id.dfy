/**
 * Patchage's PortID: a tagged identifier for a JACK port or an ALSA
 * sequencer address, and the ordering used to key maps by it.
 */
module PatchagePortID {

  type uint8 = x: int | 0 <= x < 0x100
  type uint32 = x: int | 0 <= x < 0x1_0000_0000

  /**
   * A default-constructed id is NullId; the JACK and ALSA constructors set
   * their tag and payload. Copying a value keeps tag and payload.
   */
  datatype PortID =
    | NullId
    | JackId(jackId: uint32)
    | AlsaAddr(client: uint8, port: uint8, isInput: bool)

  /** Position of the tag in the enumeration NULL_PORT_ID, JACK_ID, ALSA_ADDR. */
  function Tag(p: PortID): nat
  {
    match p
    case NullId => 0
    case JackId(_) => 1
    case AlsaAddr(_, _, _) => 2
  }

  function BoolRank(b: bool): nat { if b then 1 else 0 }

  /** operator< */
  predicate Less(a: PortID, b: PortID)
  {
    if Tag(a) != Tag(b) then Tag(a) < Tag(b)
    else match a
      case NullId => true
      case JackId(ja) => ja < b.jackId
      case AlsaAddr(ca, pa, ia) =>
        if ca < b.client || (ca == b.client && pa < b.port) then true
        else if ca == b.client && pa == b.port then BoolRank(ia) < BoolRank(b.isInput)
        else false
  }

  /** Ids with different tags are ordered by tag: NULL before JACK before ALSA. */
  lemma TagOrder(a: PortID, b: PortID)
    requires Tag(a) != Tag(b)
    ensures Less(a, b) <==> (a.NullId? || (a.JackId? && b.AlsaAddr?))
  {
  }

  /** JACK ids compare by their number. */
  lemma JackOrder(a: uint32, b: uint32)
    ensures Less(JackId(a), JackId(b)) <==> a < b
  {
  }

  /** ALSA ids compare lexicographically on (client, port, is_input), with out before in. */
  lemma AlsaOrder(a: PortID, b: PortID)
    requires a.AlsaAddr? && b.AlsaAddr?
    ensures Less(a, b) <==>
      (a.client < b.client
       || (a.client == b.client && a.port < b.port)
       || (a.client == b.client && a.port == b.port && !a.isInput && b.isInput))
  {
  }

  /** Two null ids are each "less" than the other, so the order is not irreflexive. */
  lemma NullNotIrreflexive()
    ensures Less(NullId, NullId)
  {
  }

  /** Away from NullId the relation is a strict total order. */
  lemma StrictTotalOrderOffNull(a: PortID, b: PortID, c: PortID)
    requires !a.NullId? && !b.NullId? && !c.NullId?
    ensures !Less(a, a)
    ensures Less(a, b) ==> !Less(b, a)
    ensures Less(a, b) && Less(b, c) ==> Less(a, c)
    ensures a != b ==> Less(a, b) || Less(b, a)
  {
  }

  /** Two ids are each less than the other exactly when both are null. */
  lemma MutualLessOnlyForNull(a: PortID, b: PortID)
    ensures (Less(a, b) && Less(b, a)) <==> (a.NullId? && b.NullId?)
  {
  }
}
