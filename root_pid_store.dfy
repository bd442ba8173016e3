/** The root of the parameter registry: the ESTA store (the PIDs of the
    E1.20 family of standards) and one store per manufacturer, together
    with the version of the loaded data. */
module RootPidStores {
  import opened Wrappers
  import opened PidDescriptors
  import opened PidStores

  class RootPidStore {
    const estaStore: Option<PidStore>
    const manufacturerStores: map<u16, PidStore>
    const version: u64

    /** Every store the root refers to keeps its two indexes in agreement. */
    ghost predicate Valid() {
      && (estaStore.Some? ==> estaStore.value.Valid())
      && forall id :: id in manufacturerStores ==> manufacturerStores[id].Valid()
    }

    /** The ESTA descriptors; none when there is no ESTA store. */
    ghost function EstaDescriptors(): set<PidDescriptor> {
      if estaStore.Some? then estaStore.value.Descriptors() else {}
    }

    /** The descriptors of manufacturer `id`; none when it has no store. */
    ghost function ManufacturerDescriptors(id: u16): set<PidDescriptor> {
      if id in manufacturerStores then manufacturerStores[id].Descriptors() else {}
    }

    /** Takes the ESTA store (`None` for a NULL pointer), the manufacturer
        stores and the version of the data, 0 unless given. */
    constructor (esta: Option<PidStore>, manufacturers: map<u16, PidStore>, version: u64 := 0)
      requires esta.Some? ==> esta.value.Valid()
      requires forall id :: id in manufacturers ==> manufacturers[id].Valid()
      ensures Valid()
      ensures EstaStore() == esta && Version() == version
      ensures forall id :: ManufacturerStore(id) == if id in manufacturers then Some(manufacturers[id]) else None
    {
      estaStore := esta;
      manufacturerStores := manufacturers;
      this.version := version;
    }

    /** The version of the parameter data; a higher number is more recent. */
    function Version(): (v: u64)
      ensures v == version
    {
      version
    }

    /** The ESTA store given at construction, if any; it stays usable for
        lookups as long as the root does. */
    function EstaStore(): (r: Option<PidStore>)
      requires Valid()
      ensures r == estaStore
      ensures r.Some? ==> r.value.Valid() && r.value.Descriptors() == EstaDescriptors()
    {
      estaStore
    }

    /** The store of manufacturer `id`, or `None` when there were no
        parameters for that manufacturer. */
    function ManufacturerStore(id: u16): (r: Option<PidStore>)
      ensures r.Some? <==> id in manufacturerStores
      ensures r.Some? ==> r.value == manufacturerStores[id]
    {
      if id in manufacturerStores then Some(manufacturerStores[id]) else None
    }

    /** Looks up an ESTA-defined parameter by name. */
    function GetDescriptorByName(pidName: string): (r: Option<PidDescriptor>)
      requires Valid()
      ensures r.Some? ==> r.value in EstaDescriptors() && r.value.name == pidName
      ensures r.None? <==> forall d :: d in EstaDescriptors() ==> d.name != pidName
    {
      match estaStore
      case None => None
      case Some(store) => store.LookupByName(pidName)
    }

    /** Looks up an ESTA-defined parameter by PID value. */
    function GetDescriptorByValue(pidValue: u16): (r: Option<PidDescriptor>)
      requires Valid()
      ensures r.Some? ==> r.value in EstaDescriptors() && r.value.value == pidValue
      ensures r.None? <==> forall d :: d in EstaDescriptors() ==> d.value != pidValue
    {
      match estaStore
      case None => None
      case Some(store) => store.LookupByValue(pidValue)
    }

    /** Looks up a parameter by name in both the ESTA store and the store of
        `manufacturerId`. The contract does not say which store answers
        when both hold the name; the body asks the ESTA store first. */
    function GetDescriptorByNameFor(pidName: string, manufacturerId: u16): (r: Option<PidDescriptor>)
      requires Valid()
      ensures r.Some? ==> r.value.name == pidName
      ensures r.Some? ==> r.value in EstaDescriptors() || r.value in ManufacturerDescriptors(manufacturerId)
      ensures r.None? <==> forall d :: d in EstaDescriptors() + ManufacturerDescriptors(manufacturerId) ==> d.name != pidName
    {
      match GetDescriptorByName(pidName)
      case Some(d) => Some(d)
      case None =>
        match ManufacturerStore(manufacturerId)
        case None => None
        case Some(store) => store.LookupByName(pidName)
    }

    /** Looks up a parameter by PID value in both the ESTA store and the
        store of `manufacturerId`. The contract does not say which store
        answers when both hold the value; the body asks the ESTA store
        first. */
    function GetDescriptorByValueFor(pidValue: u16, manufacturerId: u16): (r: Option<PidDescriptor>)
      requires Valid()
      ensures r.Some? ==> r.value.value == pidValue
      ensures r.Some? ==> r.value in EstaDescriptors() || r.value in ManufacturerDescriptors(manufacturerId)
      ensures r.None? <==> forall d :: d in EstaDescriptors() + ManufacturerDescriptors(manufacturerId) ==> d.value != pidValue
    {
      match GetDescriptorByValue(pidValue)
      case Some(d) => Some(d)
      case None =>
        match ManufacturerStore(manufacturerId)
        case None => None
        case Some(store) => store.LookupByValue(pidValue)
    }
  }

  /** For a manufacturer without a store, the qualified lookups answer
      exactly as the ESTA-only ones. */
  lemma UnregisteredManufacturerIsEstaOnly(root: RootPidStore, pidName: string, pidValue: u16, manufacturerId: u16)
    requires root.Valid() && root.ManufacturerStore(manufacturerId).None?
    ensures root.GetDescriptorByNameFor(pidName, manufacturerId) == root.GetDescriptorByName(pidName)
    ensures root.GetDescriptorByValueFor(pidValue, manufacturerId) == root.GetDescriptorByValue(pidValue)
  {
  }

  /** When only one of the two scopes defines the name, the qualified lookup
      returns that scope's descriptor, whichever scope it is. */
  lemma QualifiedNameLookupOneScope(root: RootPidStore, pidName: string, manufacturerId: u16)
    requires root.Valid()
    ensures (forall d :: d in root.ManufacturerDescriptors(manufacturerId) ==> d.name != pidName) ==>
      root.GetDescriptorByNameFor(pidName, manufacturerId) == root.GetDescriptorByName(pidName)
    ensures root.GetDescriptorByName(pidName).None? && root.ManufacturerStore(manufacturerId).Some? ==>
      root.GetDescriptorByNameFor(pidName, manufacturerId) == root.ManufacturerStore(manufacturerId).value.LookupByName(pidName)
  {
  }

  /** When only one of the two scopes defines the PID value, the qualified
      lookup returns that scope's descriptor, whichever scope it is. */
  lemma QualifiedValueLookupOneScope(root: RootPidStore, pidValue: u16, manufacturerId: u16)
    requires root.Valid()
    ensures (forall d :: d in root.ManufacturerDescriptors(manufacturerId) ==> d.value != pidValue) ==>
      root.GetDescriptorByValueFor(pidValue, manufacturerId) == root.GetDescriptorByValue(pidValue)
    ensures root.GetDescriptorByValue(pidValue).None? && root.ManufacturerStore(manufacturerId).Some? ==>
      root.GetDescriptorByValueFor(pidValue, manufacturerId) == root.ManufacturerStore(manufacturerId).value.LookupByValue(pidValue)
  {
  }

  /** Every descriptor of either scope is reachable through the qualified
      lookups: some descriptor is returned under its name and under its
      value. */
  lemma QualifiedLookupReachesBothScopes(root: RootPidStore, d: PidDescriptor, manufacturerId: u16)
    requires root.Valid()
    requires d in root.EstaDescriptors() || d in root.ManufacturerDescriptors(manufacturerId)
    ensures root.GetDescriptorByNameFor(d.name, manufacturerId).Some?
    ensures root.GetDescriptorByValueFor(d.value, manufacturerId).Some?
  {
  }

  /** An ESTA descriptor is returned by the unqualified lookups under its
      own name and value. */
  lemma EstaLookupRoundTrip(root: RootPidStore, d: PidDescriptor)
    requires root.Valid() && d in root.EstaDescriptors()
    ensures root.GetDescriptorByName(d.name) == Some(d)
    ensures root.GetDescriptorByValue(d.value) == Some(d)
  {
    LookupRoundTrip(root.estaStore.value, d);
  }
}
