/** One RDM parameter (PID): its name, its 16-bit value, the message formats
    of its GET/SET requests and responses, and the sub-device addresses a
    GET or a SET may be sent to. */
module PidDescriptors {
  import opened Wrappers

  /** Highest sub-device number (ANSI E1.20, section 6.2.9). */
  const MAX_SUBDEVICE_NUMBER: u16 := 512
  /** The sub-device address that broadcasts to every sub-device. */
  const ALL_RDM_SUBDEVICES: u16 := 0xFFFF
  /** The sub-device address of the root device. */
  const ROOT_RDM_DEVICE: u16 := 0

  /** The message layout of one request or response. It belongs to the
      messaging layer and is never inspected here. */
  type MessageDescriptor(==)

  /** Which sub-device addresses a request may carry. */
  datatype SubDeviceValidator =
    | RootDevice              // 0 only
    | AnySubDevice            // 0 - 512 or the broadcast address
    | NonBroadcastSubDevice   // 0 - 512
    | SpecificSubDevice       // 1 - 512

  /** The meaning of a sub-device address in ANSI E1.20, section 6.2.9. */
  datatype AddressKind = Root | SubDevice | Broadcast | Reserved

  function Classify(subDevice: u16): AddressKind {
    if subDevice == ROOT_RDM_DEVICE then Root
    else if subDevice <= MAX_SUBDEVICE_NUMBER then SubDevice
    else if subDevice == ALL_RDM_SUBDEVICES then Broadcast
    else Reserved
  }

  /** The validator table in terms of address kinds: which kinds of address
      each validator lets through. */
  predicate Admits(validator: SubDeviceValidator, kind: AddressKind) {
    match validator
    case RootDevice => kind == Root
    case AnySubDevice => kind != Reserved
    case NonBroadcastSubDevice => kind == Root || kind == SubDevice
    case SpecificSubDevice => kind == SubDevice
  }

  /** Checks a sub-device address against one validator. */
  function RequestValid(subDevice: u16, validator: SubDeviceValidator): (valid: bool)
    ensures valid <==> Admits(validator, Classify(subDevice))
  {
    match validator
    case RootDevice => subDevice == ROOT_RDM_DEVICE
    case AnySubDevice => subDevice <= MAX_SUBDEVICE_NUMBER || subDevice == ALL_RDM_SUBDEVICES
    case NonBroadcastSubDevice => subDevice <= MAX_SUBDEVICE_NUMBER
    case SpecificSubDevice => 1 <= subDevice <= MAX_SUBDEVICE_NUMBER
  }

  /** The descriptor of one PID. The datatype's destructors are the accessors
      `Name()`, `Value()`, `GetRequest()`, `GetResponse()`, `SetRequest()` and
      `SetResponse()`; a `None` format is a NULL pointer. */
  datatype PidDescriptor = PidDescriptor(
    name: string,
    value: u16,
    getRequest: Option<MessageDescriptor>,
    getResponse: Option<MessageDescriptor>,
    setRequest: Option<MessageDescriptor>,
    setResponse: Option<MessageDescriptor>,
    getSubDeviceRange: SubDeviceValidator,
    setSubDeviceRange: SubDeviceValidator)
  {
    /** Whether a GET for this PID may be sent to `subDevice`. */
    function IsGetValid(subDevice: u16): (valid: bool)
      ensures valid <==> Admits(getSubDeviceRange, Classify(subDevice))
    {
      RequestValid(subDevice, getSubDeviceRange)
    }

    /** Whether a SET for this PID may be sent to `subDevice`. */
    function IsSetValid(subDevice: u16): (valid: bool)
      ensures valid <==> Admits(setSubDeviceRange, Classify(subDevice))
    {
      RequestValid(subDevice, setSubDeviceRange)
    }
  }

  /** Byte-wise (code point) lexicographic order on names, case-sensitive:
      a proper prefix comes first. */
  predicate NameLess(a: string, b: string)
    decreases |a|
  {
    if |b| == 0 then false
    else if |a| == 0 then true
    else if a[0] != b[0] then a[0] < b[0]
    else NameLess(a[1..], b[1..])
  }

  /** The comparator used to sort descriptors by name: `a` goes first only
      when its name differs from `b`'s, and of two different names exactly
      one goes first. */
  predicate OrderByName(a: PidDescriptor, b: PidDescriptor): (before: bool)
    ensures before ==> a.name != b.name
    ensures a.name != b.name ==> (before <==> !NameLess(b.name, a.name))
  {
    NameLessIrreflexive(a.name);
    NameLessAsymmetric(a.name, b.name);
    if a.name != b.name then NameLessConnected(a.name, b.name); NameLess(a.name, b.name)
    else NameLess(a.name, b.name)
  }

  // ---------------------------------------------------------------------
  // The sub-device validator table.

  /** Each validator accepts exactly the numeric range of its comment. */
  lemma RequestValidRanges(subDevice: u16)
    ensures RequestValid(subDevice, RootDevice) <==> subDevice == 0
    ensures RequestValid(subDevice, AnySubDevice) <==> subDevice <= 512 || subDevice == 0xFFFF
    ensures RequestValid(subDevice, NonBroadcastSubDevice) <==> subDevice <= 512
    ensures RequestValid(subDevice, SpecificSubDevice) <==> 1 <= subDevice <= 512
  {
  }

  /** No validator accepts a reserved address (513 to 0xFFFE). */
  lemma ReservedAddressesRejected(subDevice: u16, validator: SubDeviceValidator)
    requires 512 < subDevice < 0xFFFF
    ensures !RequestValid(subDevice, validator)
  {
  }

  /** The validators nest: SpecificSubDevice and RootDevice are each narrower
      than NonBroadcastSubDevice, which is narrower than AnySubDevice, and the
      last two differ only at the broadcast address. */
  lemma ValidatorsNest(subDevice: u16)
    ensures RequestValid(subDevice, SpecificSubDevice) ==> RequestValid(subDevice, NonBroadcastSubDevice)
    ensures RequestValid(subDevice, RootDevice) ==> RequestValid(subDevice, NonBroadcastSubDevice)
    ensures RequestValid(subDevice, NonBroadcastSubDevice) ==> RequestValid(subDevice, AnySubDevice)
    ensures RequestValid(subDevice, AnySubDevice) && !RequestValid(subDevice, NonBroadcastSubDevice)
            <==> subDevice == ALL_RDM_SUBDEVICES
    ensures !(RequestValid(subDevice, RootDevice) && RequestValid(subDevice, SpecificSubDevice))
  {
  }

  /** The boundary values of the validator table. */
  lemma ValidatorBoundaries()
    ensures RequestValid(0, RootDevice) && !RequestValid(1, RootDevice)
    ensures !RequestValid(512, RootDevice) && !RequestValid(0xFFFF, RootDevice)
    ensures RequestValid(0, AnySubDevice) && RequestValid(1, AnySubDevice)
    ensures RequestValid(512, AnySubDevice) && RequestValid(0xFFFF, AnySubDevice)
    ensures !RequestValid(513, AnySubDevice)
    ensures RequestValid(0, NonBroadcastSubDevice) && RequestValid(512, NonBroadcastSubDevice)
    ensures !RequestValid(0xFFFF, NonBroadcastSubDevice) && !RequestValid(513, NonBroadcastSubDevice)
    ensures RequestValid(1, SpecificSubDevice) && RequestValid(512, SpecificSubDevice)
    ensures !RequestValid(0, SpecificSubDevice) && !RequestValid(0xFFFF, SpecificSubDevice)
    ensures !RequestValid(513, SpecificSubDevice)
  {
  }

  /** GET validity depends on the GET validator alone, SET validity on the
      SET validator alone: two descriptors that share one of them agree on
      that direction whatever else they hold. */
  lemma ValidityPerDirection(d: PidDescriptor, e: PidDescriptor, subDevice: u16)
    ensures d.getSubDeviceRange == e.getSubDeviceRange ==> d.IsGetValid(subDevice) == e.IsGetValid(subDevice)
    ensures d.setSubDeviceRange == e.setSubDeviceRange ==> d.IsSetValid(subDevice) == e.IsSetValid(subDevice)
    ensures d.IsGetValid(subDevice) == RequestValid(subDevice, d.getSubDeviceRange)
    ensures d.IsSetValid(subDevice) == RequestValid(subDevice, d.setSubDeviceRange)
  {
  }

  /** GET and SET validity are independent: a descriptor may allow a GET to
      the broadcast address while refusing a SET there. */
  lemma GetAndSetMayDiffer(d: PidDescriptor)
    requires d.getSubDeviceRange == AnySubDevice && d.setSubDeviceRange == NonBroadcastSubDevice
    ensures d.IsGetValid(ALL_RDM_SUBDEVICES) && !d.IsSetValid(ALL_RDM_SUBDEVICES)
  {
  }

  /** The accessors give back exactly what the descriptor was built from. */
  lemma AccessorsReturnArguments(
    name: string, value: u16,
    getRequest: Option<MessageDescriptor>, getResponse: Option<MessageDescriptor>,
    setRequest: Option<MessageDescriptor>, setResponse: Option<MessageDescriptor>,
    getRange: SubDeviceValidator, setRange: SubDeviceValidator)
    ensures var d := PidDescriptor(name, value, getRequest, getResponse, setRequest, setResponse, getRange, setRange);
      && d.name == name && d.value == value
      && d.getRequest == getRequest && d.getResponse == getResponse
      && d.setRequest == setRequest && d.setResponse == setResponse
      && d.getSubDeviceRange == getRange && d.setSubDeviceRange == setRange
  {
  }

  // ---------------------------------------------------------------------
  // OrderByName is a strict total order on names.

  lemma {:induction false} NameLessIrreflexive(a: string)
    ensures !NameLess(a, a)
  {
    if |a| > 0 {
      NameLessIrreflexive(a[1..]);
    }
  }

  lemma {:induction false} NameLessAsymmetric(a: string, b: string)
    ensures NameLess(a, b) ==> !NameLess(b, a)
    decreases |a|
  {
    if |a| > 0 && |b| > 0 && a[0] == b[0] {
      NameLessAsymmetric(a[1..], b[1..]);
    }
  }

  lemma {:induction false} NameLessTransitive(a: string, b: string, c: string)
    requires NameLess(a, b) && NameLess(b, c)
    ensures NameLess(a, c)
    decreases |a|
  {
    if |a| > 0 && a[0] == b[0] && b[0] == c[0] {
      NameLessTransitive(a[1..], b[1..], c[1..]);
    }
  }

  lemma {:induction false} NameLessConnected(a: string, b: string)
    requires a != b
    ensures NameLess(a, b) || NameLess(b, a)
    decreases |a|
  {
    if |a| > 0 && |b| > 0 && a[0] == b[0] {
      assert a == [a[0]] + a[1..] && b == [b[0]] + b[1..];
      NameLessConnected(a[1..], b[1..]);
    }
  }

  /** OrderByName never relates a descriptor to itself, is transitive, and
      orders any two descriptors whose names differ one way exactly. */
  lemma OrderByNameIsStrictTotal(a: PidDescriptor, b: PidDescriptor, c: PidDescriptor)
    ensures !OrderByName(a, a)
    ensures OrderByName(a, b) && OrderByName(b, c) ==> OrderByName(a, c)
    ensures a.name != b.name ==> (OrderByName(a, b) <==> !OrderByName(b, a))
    ensures a.name == b.name ==> !OrderByName(a, b)
  {
    NameLessIrreflexive(a.name);
    NameLessIrreflexive(b.name);
    NameLessAsymmetric(a.name, b.name);
    if OrderByName(a, b) && OrderByName(b, c) {
      NameLessTransitive(a.name, b.name, c.name);
    }
    if a.name != b.name {
      NameLessConnected(a.name, b.name);
    }
  }

  /** The order is case-sensitive: upper-case letters sort before
      lower-case ones, so "Alpha" < "Zeta" < "mid". */
  lemma NameOrderIsCaseSensitive()
    ensures NameLess("Alpha", "Zeta") && NameLess("Zeta", "mid")
    ensures !NameLess("mid", "Zeta")
  {
  }
}
