/**
 Register state of the CHERI backend: what a register is known to hold, and where its
 authority comes from.
 */
module Contract {
  import opened Words

  datatype ValueKind = ScalarValue | CapabilityValue

  datatype CapSource = NoSource | Context | Stack | MapValue | HelperReturn

  /** The kind a register state stands for: no known authority, or one root's capability. */
  datatype Kind = Scalar | Capability(source: CapSource)

  class RegState {
    var kind: ValueKind
    var source: CapSource
    var boundsId: u32

    /** A scalar names no root. */
    ghost predicate Valid()
      reads this
    {
      kind == ScalarValue ==> source == NoSource && boundsId == 0
    }

    function Abstract(): Kind
      reads this
    {
      if kind == ScalarValue then Scalar else Capability(source)
    }

    constructor ()
      ensures Valid() && Abstract() == Scalar
    {
      kind, source, boundsId := ScalarValue, NoSource, 0;
    }

    method MarkScalar()
      modifies this
      ensures Valid() && Abstract() == Scalar
      ensures source == NoSource && boundsId == 0
    {
      kind := ScalarValue;
      source := NoSource;
      boundsId := 0;
    }

    method MarkCapability(from: CapSource, id: u32)
      modifies this
      ensures Valid() && Abstract() == Capability(from)
      ensures source == from && boundsId == id
    {
      kind := CapabilityValue;
      source := from;
      boundsId := id;
    }

    method IsCapability() returns (b: bool)
      ensures b <==> Abstract().Capability?
    {
      b := kind == CapabilityValue;
    }
  }
}
