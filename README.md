# RDM parameter descriptor registry

A Dafny model of the PID store of the Open Lighting Architecture's RDM
library (ANSI E1.20, Remote Device Management). The store answers two
questions about every RDM parameter (PID): does a PID with this value or name
exist, for the ESTA standards or for a given manufacturer, and may a GET or a
SET of it be addressed to this sub-device?

It has three layers, one Dafny module each, plus a module of shared types:

- `Wrappers` (`wrappers.dfy`): `Option`, the model of a pointer that may be
  NULL, and the `u16`/`u64` integer types of the interface.
- `PidDescriptors` (`pid_descriptor.dfy`): the immutable `PidDescriptor`
  record (name, 16-bit value, four message-format handles, a GET and a SET
  sub-device validator), the four-way validator check, and the by-name
  order. The format handles are an abstract type: the model never looks
  inside them. The validator table is specified against the meaning of a
  sub-device address in section 6.2.9 of ANSI E1.20: 0 is the root device,
  1 to 512 are sub-devices, 0xFFFF addresses all sub-devices, the rest is
  reserved.
- `PidStores` (`pid_store.dfy`): `PidStore`, one scope (ESTA or one
  manufacturer). Its constructor walks the input sequence and inserts each
  descriptor into a value index and a name index; both are `const` fields,
  since nothing changes them afterwards. `AllPids` appends the store's
  descriptors to a given sequence. The pure functions `ValueIndex` and
  `NameIndex` describe what the constructor's loop builds, and the lemmas
  about them give the round-trip, miss and count properties.
- `RootPidStores` (`root_pid_store.dfy`): `RootPidStore`, the ESTA store
  (an `Option`, because the constructor takes a raw pointer), the map from
  manufacturer id to store, and the version (0 unless given). Unqualified
  lookups search the ESTA store only; manufacturer-qualified lookups search
  the ESTA store and that manufacturer's store.

Only the header `include/ola/rdm/PidStore.h` of this component is available;
the bodies in its `.cc` file are not part of this model. The Dafny bodies
follow the declarations and their comments, and three modelling choices
fill what the header leaves open:

- The qualified `GetDescriptor` bodies ask the ESTA store first and the
  manufacturer store second. The header does not say which store answers a
  key that both define, so no contract depends on that order; a
  manufacturer-first order would meet the same contracts.
- `AllPids` walks the value index in ascending PID order, as iterating a
  `std::map` keyed by PID does.
- `AllPids` adds to the vector it is given and does not clear it first: the
  descriptors already in it stay, in place, ahead of the store's.
- `OrderByName` is the lexicographic, case-sensitive order on the
  characters' code points with a proper prefix first. For UTF-8 names this
  is the same as byte-wise order.

The header makes unique names and values a precondition of the `PidStore`
constructor, so construction does not check for duplicate keys and fail;
the model's constructor requires uniqueness instead.

## Model

| member | source | states |
|---|---|---|
| PidDescriptors.RequestValid | include/ola/rdm/PidStore.h:250-255 | a sub-device address passes a validator exactly when the validator admits the address's kind (root, sub-device, broadcast, reserved) in the E1.20 sense |
| PidDescriptors.RequestValidRanges | include/ola/rdm/PidStore.h:250-255 | the numeric range of each validator: ROOT_DEVICE 0 only; ANY_SUB_DEVICE 0-512 or 0xFFFF; NON_BROADCAST_SUB_DEVICE 0-512; SPECIFIC_SUB_DEVICE 1-512 |
| PidDescriptors.ReservedAddressesRejected | include/ola/rdm/PidStore.h:250-255 | no validator accepts an address from 513 to 0xFFFE |
| PidDescriptors.ValidatorsNest | include/ola/rdm/PidStore.h:250-255 | SPECIFIC and ROOT are each within NON_BROADCAST, which is within ANY; ANY and NON_BROADCAST differ only at 0xFFFF; ROOT and SPECIFIC share no address |
| PidDescriptors.ValidatorBoundaries | include/ola/rdm/PidStore.h:250-255 | the accept/reject table at the boundary addresses 0, 1, 512, 513 and 0xFFFF for all four validators |
| PidDescriptors.PidDescriptor.IsGetValid | include/ola/rdm/PidStore.h:287 | a GET may go to an address exactly when the GET validator given at construction admits its kind |
| PidDescriptors.PidDescriptor.IsSetValid | include/ola/rdm/PidStore.h:288 | a SET may go to an address exactly when the SET validator given at construction admits its kind |
| PidDescriptors.ValidityPerDirection | include/ola/rdm/PidStore.h:263-264 | GET validity depends only on the GET validator and SET validity only on the SET validator; each is RequestValid with that validator |
| PidDescriptors.GetAndSetMayDiffer | include/ola/rdm/PidStore.h:263-264 | a descriptor with an ANY GET validator and a NON_BROADCAST SET validator accepts a broadcast GET and refuses a broadcast SET |
| PidDescriptors.AccessorsReturnArguments | include/ola/rdm/PidStore.h:257-285 | the name, value, four format handles and two validators read back are exactly the constructor's arguments |
| PidDescriptors.OrderByName | include/ola/rdm/PidStore.h:290 | a descriptor goes before another only when their names differ, and of two descriptors with different names exactly one goes first |
| PidDescriptors.NameLessIrreflexive | include/ola/rdm/PidStore.h:290 | no name is ordered before itself |
| PidDescriptors.NameLessAsymmetric | include/ola/rdm/PidStore.h:290 | two names are never ordered both ways |
| PidDescriptors.NameLessTransitive | include/ola/rdm/PidStore.h:290 | the name order is transitive |
| PidDescriptors.NameLessConnected | include/ola/rdm/PidStore.h:290 | of two different names, one is ordered before the other |
| PidDescriptors.OrderByNameIsStrictTotal | include/ola/rdm/PidStore.h:290 | OrderByName is a strict total order on descriptor names: irreflexive, transitive, exactly one direction for different names, neither for equal names |
| PidDescriptors.NameOrderIsCaseSensitive | include/ola/rdm/PidStore.h:290 | upper case sorts before lower case: "Alpha" < "Zeta" < "mid" |
| PidStores.ValueIndexFiled | include/ola/rdm/PidStore.h:196 | the value index built from the input has exactly the input values as keys, each filed at an input descriptor with that value |
| PidStores.ValueIndexComplete | include/ola/rdm/PidStore.h:191-196 | with unique input, every input descriptor is filed under its own value and the index has one entry per input descriptor |
| PidStores.NameIndexFiled | include/ola/rdm/PidStore.h:196 | the name index built from the input has exactly the input names as keys, each filed at an input descriptor with that name |
| PidStores.NameIndexComplete | include/ola/rdm/PidStore.h:191-196 | with unique input, every input descriptor is filed under its own name and the index has one entry per input descriptor |
| PidStores.BuiltIndexesAgree | include/ola/rdm/PidStore.h:233-236 | with unique input, the two indexes agree: each entry of one is found in the other under its other key |
| PidStores.BuiltIndexesContents | include/ola/rdm/PidStore.h:191-196 | with unique input, the indexes agree, hold exactly the input descriptors under exactly the input keys, and have one entry per input descriptor |
| PidStores.PidStore.constructor | include/ola/rdm/PidStore.h:188-196 | inserting every input descriptor leaves two agreeing indexes holding exactly the input, keyed by exactly its values and names, each as large as the input |
| PidStores.IndexImageSize | include/ola/rdm/PidStore.h:207 | an index whose entries are filed under their own keys holds as many distinct descriptors as it has keys |
| PidStores.PidStore.NameIndexHoldsDescriptors | include/ola/rdm/PidStore.h:233-236 | the name index holds the same descriptors as the value index |
| PidStores.PidStore.PidCount | include/ola/rdm/PidStore.h:203-207 | the count is the number of distinct descriptors in the store, and equals the size of the name index as well as of the value index |
| PidStores.PidStore.LookupByValue | include/ola/rdm/PidStore.h:218-223 | the result is a descriptor of the store with that PID value; NULL exactly when no descriptor of the store has that value |
| PidStores.PidStore.LookupByName | include/ola/rdm/PidStore.h:225-230 | the result is a descriptor of the store with that name; NULL exactly when no descriptor of the store has that name |
| PidStores.ListBelowMember | include/ola/rdm/PidStore.h:209-216 | the walk of the value index up to a bound lists a descriptor exactly when the store holds it and its PID is below the bound |
| PidStores.ListBelowIncreasing | include/ola/rdm/PidStore.h:209-216 | the walk of the value index lists PIDs in strictly increasing order |
| PidStores.ListedAreImage | include/ola/rdm/PidStore.h:209-216 | the complete walk lists exactly the store's descriptors |
| PidStores.IncreasingListingSize | include/ola/rdm/PidStore.h:209-216 | a listing with strictly increasing PIDs names each descriptor once |
| PidStores.FullListing | include/ola/rdm/PidStore.h:209-216 | the complete walk lists each descriptor of the index exactly once, in increasing PID order |
| PidStores.PidStore.ListingProperties | include/ola/rdm/PidStore.h:209-216 | the store's complete listing has PidCount entries, is exactly its descriptors and increases strictly by PID |
| PidStores.PidStore.AllPids | include/ola/rdm/PidStore.h:209-216 | the output keeps the given elements in place as a prefix and appends PidCount descriptors: every descriptor of the store, each once, nothing else, in ascending PID order |
| PidStores.LookupRoundTrip | include/ola/rdm/PidStore.h:218-230 | a descriptor of the store is found under its own value and under its own name |
| PidStores.BuiltStoreLookups | include/ola/rdm/PidStore.h:189-230 | a store built from unique descriptors finds each input descriptor under its value and its name, returns NULL for every key not in the input, and counts exactly the input |
| RootPidStores.RootPidStore.constructor | include/ola/rdm/PidStore.h:72-84 | from usable stores it builds a usable root; EstaStore and Version return the ESTA store and version given (version 0 by default), and ManufacturerStore returns the given map's entry for each id |
| RootPidStores.RootPidStore.Version | include/ola/rdm/PidStore.h:88-93 | the version of the parameter data, the one given at construction |
| RootPidStores.RootPidStore.EstaStore | include/ola/rdm/PidStore.h:95-102 | the ESTA store given at construction (None for NULL); when present it is usable for lookups and holds exactly the ESTA descriptors |
| RootPidStores.RootPidStore.ManufacturerStore | include/ola/rdm/PidStore.h:104-110 | the store registered for the manufacturer id, NULL exactly when that id has none |
| RootPidStores.RootPidStore.GetDescriptorByName | include/ola/rdm/PidStore.h:112-117 | an ESTA descriptor with that name; NULL exactly when there is no ESTA store or it has no such name |
| RootPidStores.RootPidStore.GetDescriptorByNameFor | include/ola/rdm/PidStore.h:119-127 | a descriptor with that name from the ESTA store or that manufacturer's store; NULL exactly when neither has the name |
| RootPidStores.RootPidStore.GetDescriptorByValue | include/ola/rdm/PidStore.h:129-134 | an ESTA descriptor with that PID; NULL exactly when there is no ESTA store or it has no such PID |
| RootPidStores.RootPidStore.GetDescriptorByValueFor | include/ola/rdm/PidStore.h:136-144 | a descriptor with that PID from the ESTA store or that manufacturer's store; NULL exactly when neither has the PID |
| RootPidStores.UnregisteredManufacturerIsEstaOnly | include/ola/rdm/PidStore.h:104-144 | for a manufacturer without a store, both qualified lookups equal the unqualified ones |
| RootPidStores.QualifiedNameLookupOneScope | include/ola/rdm/PidStore.h:119-127 | when only one scope defines the name, the qualified lookup returns that scope's answer, whichever scope it is |
| RootPidStores.QualifiedValueLookupOneScope | include/ola/rdm/PidStore.h:136-144 | when only one scope defines the PID, the qualified lookup returns that scope's answer, whichever scope it is |
| RootPidStores.QualifiedLookupReachesBothScopes | include/ola/rdm/PidStore.h:119-144 | every descriptor of the ESTA store or of the manufacturer's store is reachable: the qualified lookups under its name and its value return a descriptor |
| RootPidStores.EstaLookupRoundTrip | include/ola/rdm/PidStore.h:112-134 | an ESTA descriptor is returned by the unqualified lookups under its own name and its own value |

## Left out

- RootPidStores.RootPidStore.GetDescriptorByNameFor: the contract does not say which store wins when both the ESTA and the manufacturer store define the name, because the header does not say; the body's ESTA-first order is a modelling choice.
- RootPidStores.RootPidStore.GetDescriptorByValueFor: as above for PID values; no lemma states which descriptor a query answers when both scopes define the key.
- `LoadFromFile`, `LoadFromDirectory` and `DataLocation`: file I/O and parsing of the `.proto` PID data, done in code that is not part of this model.
- `InternalESTANameLookup` and any canonicalisation of names (for instance case folding) before a name lookup: its body is not part of this model, so every name lookup is exact.
- The contents of the messaging layer's `Descriptor`: a foreign type, modelled as an abstract type that is only stored and returned.
- Destructors, `auto_ptr` ownership and `DISALLOW_COPY_AND_ASSIGN`: memory management, not behaviour.
- A `PidStore` built from duplicate names or values: the header makes uniqueness a precondition, so the constructor requires it and the model does not say which duplicate an index keeps.
- Entries of the manufacturer map that are NULL pointers: the model's map holds stores only.
- Descriptor identity: the stores hand out `const PidDescriptor*`, compared by address, while the model compares descriptors as values, field by field. Within one store unique names make the two agree, but two descriptors with equal fields, one in the ESTA store and one in a manufacturer's store, are one value in the model.
- PidStores.PidStore.PidCount: the `unsigned int` width of the result is not modelled; the count is a natural number.
- The ordering of `OrderByName` beyond a strict total order on names is a modelling choice (code-point lexicographic); the `.cc` body that fixes it is not part of this model.
- The version's increase across reloads, and the agreement of two loads of the same data: both belong to the loaders, which are left out.
- plugins/ovdmx/OVDmxPlugin.h and plugins/ovdmx/OVDmxDevice.h: plugin and device lifecycle wiring (start, stop, preferences, device path) to framework classes that are not shown, with no logic to state.
