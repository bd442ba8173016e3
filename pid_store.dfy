/** The PIDs of one scope (the ESTA set, or one manufacturer), indexed by
    PID value and by name. */
module PidStores {
  import opened Wrappers
  import opened PidDescriptors

  /** The constructor's precondition: no two descriptors share a value or a
      name. */
  predicate UniqueNamesAndValues(pids: seq<PidDescriptor>) {
    forall i, j :: 0 <= i < j < |pids| ==> pids[i].value != pids[j].value && pids[i].name != pids[j].name
  }

  function ValuesOf(pids: seq<PidDescriptor>): set<u16> {
    set d | d in pids :: d.value
  }

  function NamesOf(pids: seq<PidDescriptor>): set<string> {
    set d | d in pids :: d.name
  }

  /** The value index after inserting `pids` one after the other. */
  function ValueIndex(pids: seq<PidDescriptor>): map<u16, PidDescriptor>
    decreases |pids|
  {
    if pids == [] then map[]
    else ValueIndex(pids[..|pids| - 1])[pids[|pids| - 1].value := pids[|pids| - 1]]
  }

  /** The name index after inserting `pids` one after the other. */
  function NameIndex(pids: seq<PidDescriptor>): map<string, PidDescriptor>
    decreases |pids|
  {
    if pids == [] then map[]
    else NameIndex(pids[..|pids| - 1])[pids[|pids| - 1].name := pids[|pids| - 1]]
  }

  /** The two indexes describe the same descriptors: each entry is filed
      under its own value (name), and can be found under its name (value)
      in the other index. */
  ghost predicate IndexesAgree(byValue: map<u16, PidDescriptor>, byName: map<string, PidDescriptor>) {
    && (forall v :: v in byValue ==>
          byValue[v].value == v && byValue[v].name in byName && byName[byValue[v].name] == byValue[v])
    && (forall n :: n in byName ==>
          byName[n].name == n && byName[n].value in byValue && byValue[byName[n].value] == byName[n])
  }

  /** Every entry of the value index is an input descriptor filed under its
      own value, and the keys are exactly the input values. */
  lemma {:induction false} ValueIndexFiled(pids: seq<PidDescriptor>)
    ensures ValueIndex(pids).Keys == ValuesOf(pids)
    ensures forall v :: v in ValueIndex(pids) ==> ValueIndex(pids)[v].value == v && ValueIndex(pids)[v] in pids
    decreases |pids|
  {
    if pids != [] {
      var init, last := pids[..|pids| - 1], pids[|pids| - 1];
      ValueIndexFiled(init);
      assert pids == init + [last];
      assert ValuesOf(pids) == ValuesOf(init) + {last.value};
    }
  }

  /** Built from unique descriptors, the value index files every one of them
      under its own value and has one entry per descriptor. */
  lemma {:induction false} ValueIndexComplete(pids: seq<PidDescriptor>)
    requires UniqueNamesAndValues(pids)
    ensures forall i :: 0 <= i < |pids| ==> pids[i].value in ValueIndex(pids) && ValueIndex(pids)[pids[i].value] == pids[i]
    ensures |ValueIndex(pids)| == |pids|
    decreases |pids|
  {
    if pids != [] {
      var init, last := pids[..|pids| - 1], pids[|pids| - 1];
      assert UniqueNamesAndValues(init);
      ValueIndexComplete(init);
      ValueIndexFiled(init);
      assert last.value !in ValuesOf(init);
    }
  }

  /** Every entry of the name index is an input descriptor filed under its
      own name, and the keys are exactly the input names. */
  lemma {:induction false} NameIndexFiled(pids: seq<PidDescriptor>)
    ensures NameIndex(pids).Keys == NamesOf(pids)
    ensures forall n :: n in NameIndex(pids) ==> NameIndex(pids)[n].name == n && NameIndex(pids)[n] in pids
    decreases |pids|
  {
    if pids != [] {
      var init, last := pids[..|pids| - 1], pids[|pids| - 1];
      NameIndexFiled(init);
      assert pids == init + [last];
      assert NamesOf(pids) == NamesOf(init) + {last.name};
    }
  }

  /** Built from unique descriptors, the name index files every one of them
      under its own name and has one entry per descriptor. */
  lemma {:induction false} NameIndexComplete(pids: seq<PidDescriptor>)
    requires UniqueNamesAndValues(pids)
    ensures forall i :: 0 <= i < |pids| ==> pids[i].name in NameIndex(pids) && NameIndex(pids)[pids[i].name] == pids[i]
    ensures |NameIndex(pids)| == |pids|
    decreases |pids|
  {
    if pids != [] {
      var init, last := pids[..|pids| - 1], pids[|pids| - 1];
      assert UniqueNamesAndValues(init);
      NameIndexComplete(init);
      NameIndexFiled(init);
      assert last.name !in NamesOf(init);
    }
  }

  /** Indexes built from unique descriptors agree with each other. */
  lemma BuiltIndexesAgree(pids: seq<PidDescriptor>)
    requires UniqueNamesAndValues(pids)
    ensures IndexesAgree(ValueIndex(pids), NameIndex(pids))
  {
    ValueIndexFiled(pids);
    ValueIndexComplete(pids);
    NameIndexFiled(pids);
    NameIndexComplete(pids);
    var byValue, byName := ValueIndex(pids), NameIndex(pids);
    forall v | v in byValue
      ensures byValue[v].name in byName && byName[byValue[v].name] == byValue[v]
    {
      var i :| 0 <= i < |pids| && pids[i] == byValue[v];
    }
    forall n | n in byName
      ensures byName[n].value in byValue && byValue[byName[n].value] == byName[n]
    {
      var i :| 0 <= i < |pids| && pids[i] == byName[n];
    }
  }

  /** The descriptors an index holds. */
  ghost function Image<K>(m: map<K, PidDescriptor>): set<PidDescriptor> {
    set k | k in m :: m[k]
  }

  /** An index whose every entry is filed under its own key holds as many
      distinct descriptors as it has keys. */
  lemma {:induction false} IndexImageSize<K>(m: map<K, PidDescriptor>, key: PidDescriptor -> K)
    requires forall k :: k in m ==> key(m[k]) == k
    ensures |Image(m)| == |m|
    decreases |m|
  {
    if |m| > 0 {
      var k :| k in m;
      var rest := m - {k};
      IndexImageSize(rest, key);
      forall d ensures d in Image(m) <==> d in Image(rest) + {m[k]} {
        if d in Image(m) {
          var j :| j in m && m[j] == d;
          if j != k { assert j in rest; }
        }
        if d in Image(rest) {
          var j :| j in rest && rest[j] == d;
          assert j in m;
        }
      }
      assert Image(m) == Image(rest) + {m[k]};
      assert m[k] !in Image(rest);
    } else {
      assert m == map[];
    }
  }

  /** The descriptors of a value index whose PID is below `bound`, in
      ascending PID order: what a walk of the index has produced once it
      reaches `bound`. */
  function ListBelow(m: map<u16, PidDescriptor>, bound: int): seq<PidDescriptor>
    requires 0 <= bound <= 0x1_0000
    decreases bound
  {
    if bound == 0 then []
    else ListBelow(m, bound - 1) + (if (bound - 1) as u16 in m then [m[(bound - 1) as u16]] else [])
  }

  /** A descriptor is in the listing up to `bound` exactly when the index
      holds it and its PID is below `bound`. */
  lemma {:induction false} ListBelowMember(m: map<u16, PidDescriptor>, bound: int, d: PidDescriptor)
    requires 0 <= bound <= 0x1_0000
    requires forall k :: k in m ==> m[k].value == k
    ensures d in ListBelow(m, bound) <==> d in Image(m) && (d.value as int) < bound
    decreases bound
  {
    if bound > 0 {
      ListBelowMember(m, bound - 1, d);
      var k := (bound - 1) as u16;
      if d in Image(m) && d.value == k {
        var j :| j in m && m[j] == d;
      }
    }
  }

  /** With the whole PID range as bound, the listing names exactly the
      descriptors of the index. The bound `n` is a parameter fixed to
      0x1_0000 rather than the literal itself: given a literal bound, the
      verifier unfolds ListBelow's definition one PID at a time. */
  lemma ListedAreImage(m: map<u16, PidDescriptor>, n: int)
    requires n == 0x1_0000
    requires forall k :: k in m ==> m[k].value == k
    ensures forall d :: d in ListBelow(m, n) <==> d in Image(m)
    ensures (set d | d in ListBelow(m, n)) == Image(m)
  {
    forall d ensures d in ListBelow(m, n) <==> d in Image(m) {
      ListBelowMember(m, n, d);
    }
    ElementsOfListing(ListBelow(m, n), Image(m));
  }

  /** A sequence and a set with the same members: the set of the sequence's
      elements is that set. */
  lemma ElementsOfListing(s: seq<PidDescriptor>, t: set<PidDescriptor>)
    requires forall d :: d in s <==> d in t
    ensures (set d | d in s) == t
  {
  }

  /** The listing up to `bound` has strictly increasing PID values. */
  lemma {:induction false} ListBelowIncreasing(m: map<u16, PidDescriptor>, bound: int)
    requires 0 <= bound <= 0x1_0000
    requires forall k :: k in m ==> m[k].value == k
    ensures forall i, j :: 0 <= i < j < |ListBelow(m, bound)| ==> ListBelow(m, bound)[i].value < ListBelow(m, bound)[j].value
    decreases bound
  {
    if bound > 0 {
      ListBelowIncreasing(m, bound - 1);
      var prev := ListBelow(m, bound - 1);
      var k := (bound - 1) as u16;
      if k in m {
        var list := ListBelow(m, bound);
        assert list == prev + [m[k]];
        forall i, j | 0 <= i < j < |list| ensures list[i].value < list[j].value {
          assert list[i] == prev[i];
          if j == |prev| {
            ListBelowMember(m, bound - 1, prev[i]);
          } else {
            assert list[j] == prev[j];
          }
        }
      }
    }
  }

  /** What the constructor's indexes hold when built from unique
      descriptors: they agree, they hold exactly the input, and each has one
      entry per input descriptor. */
  lemma BuiltIndexesContents(pids: seq<PidDescriptor>)
    requires UniqueNamesAndValues(pids)
    ensures IndexesAgree(ValueIndex(pids), NameIndex(pids))
    ensures Image(ValueIndex(pids)) == set d | d in pids
    ensures ValueIndex(pids).Keys == ValuesOf(pids) && NameIndex(pids).Keys == NamesOf(pids)
    ensures |ValueIndex(pids)| == |pids| && |NameIndex(pids)| == |pids|
  {
    BuiltIndexesAgree(pids);
    ValueIndexFiled(pids);
    ValueIndexComplete(pids);
    NameIndexFiled(pids);
    NameIndexComplete(pids);
    var byValue := ValueIndex(pids);
    forall d | d in pids ensures d in Image(byValue) {
      assert byValue[d.value] == d;
    }
  }

  /** A listing whose PID values strictly increase names each descriptor
      once, so it is as long as the set of descriptors it names. */
  lemma {:induction false} IncreasingListingSize(s: seq<PidDescriptor>)
    requires forall i, j :: 0 <= i < j < |s| ==> s[i].value < s[j].value
    ensures |(set d | d in s)| == |s|
    decreases |s|
  {
    if s != [] {
      var rest := s[1..];
      IncreasingListingSize(rest);
      assert (set d | d in s) == (set d | d in rest) + {s[0]};
      assert s[0] !in rest;
    }
  }

  /** The PIDs of one scope. The two indexes are filled in by the
      constructor and never change afterwards. */
  class PidStore {
    const byValue: map<u16, PidDescriptor>
    const byName: map<string, PidDescriptor>

    /** The descriptors held by the store. */
    ghost function Descriptors(): set<PidDescriptor> {
      Image(byValue)
    }

    ghost predicate Valid() {
      IndexesAgree(byValue, byName)
    }

    /** Whether the store's indexes are the ones its constructor builds from
        `pids`. */
    ghost predicate BuiltFrom(pids: seq<PidDescriptor>) {
      byValue == ValueIndex(pids) && byName == NameIndex(pids)
    }

    /** Inserts every descriptor of `pids` into both indexes. */
    constructor (pids: seq<PidDescriptor>)
      requires UniqueNamesAndValues(pids)
      ensures Valid() && BuiltFrom(pids)
      ensures Descriptors() == set d | d in pids
      ensures byValue.Keys == ValuesOf(pids) && byName.Keys == NamesOf(pids)
      ensures |byValue| == |pids| && |byName| == |pids|
    {
      var values: map<u16, PidDescriptor> := map[];
      var names: map<string, PidDescriptor> := map[];
      var i := 0;
      while i < |pids|
        invariant 0 <= i <= |pids|
        invariant values == ValueIndex(pids[..i]) && names == NameIndex(pids[..i])
      {
        assert pids[..i + 1][..i] == pids[..i];
        values := values[pids[i].value := pids[i]];
        names := names[pids[i].name := pids[i]];
        i := i + 1;
      }
      assert pids[..i] == pids;
      byValue := values;
      byName := names;
      new;
      BuiltIndexesContents(pids);
    }

    /** The descriptors filed in the name index are the store's descriptors. */
    lemma NameIndexHoldsDescriptors()
      requires Valid()
      ensures Image(byName) == Descriptors()
    {
      forall d ensures d in Image(byName) <==> d in Descriptors() {
        if d in Image(byName) {
          var n :| n in byName && byName[n] == d;
          assert byValue[d.value] == d;
        }
        if d in Descriptors() {
          var v :| v in byValue && byValue[v] == d;
          assert byName[d.name] == d;
        }
      }
    }

    /** The number of descriptors in the store: as many as either index has
        entries. */
    function PidCount(): (count: nat)
      requires Valid()
      ensures count == |Descriptors()| && count == |byName|
    {
      IndexImageSize(byValue, (d: PidDescriptor) => d.value);
      IndexImageSize(byName, (d: PidDescriptor) => d.name);
      NameIndexHoldsDescriptors();
      |byValue|
    }

    /** Looks a descriptor up by PID value; `None` when no descriptor of the
        store has that value. */
    function LookupByValue(pidValue: u16): (r: Option<PidDescriptor>)
      requires Valid()
      ensures r.Some? ==> r.value in Descriptors() && r.value.value == pidValue
      ensures r.None? <==> forall d :: d in Descriptors() ==> d.value != pidValue
    {
      if pidValue in byValue then Some(byValue[pidValue]) else None
    }

    /** Looks a descriptor up by name; `None` when no descriptor of the store
        has that name. */
    function LookupByName(pidName: string): (r: Option<PidDescriptor>)
      requires Valid()
      ensures r.Some? ==> r.value in Descriptors() && r.value.name == pidName
      ensures r.None? <==> forall d :: d in Descriptors() ==> d.name != pidName
    {
      NameIndexHoldsDescriptors();
      if pidName in byName then Some(byName[pidName]) else None
    }

    /** Appends every descriptor of the store to `pids`, walking the value
        index in ascending PID order. */
    method AllPids(pids: seq<PidDescriptor>) returns (out: seq<PidDescriptor>)
      requires Valid()
      ensures |out| == |pids| + PidCount()
      ensures out[..|pids|] == pids
      ensures forall d :: d in out[|pids|..] <==> d in Descriptors()
      ensures forall i, j :: |pids| <= i < j < |out| ==> out[i].value < out[j].value && out[i] != out[j]
    {
      out := pids;
      var v := 0;
      while v < 0x1_0000
        invariant 0 <= v <= 0x1_0000
        invariant out == pids + ListBelow(byValue, v)
      {
        if v as u16 in byValue {
          out := out + [byValue[v as u16]];
        }
        v := v + 1;
      }
      ListingProperties();
      assert out[|pids|..] == ListBelow(byValue, 0x1_0000);
    }

    /** The full listing of the value index names every descriptor of the
        store once, in strictly increasing PID order. */
    lemma ListingProperties()
      requires Valid()
      ensures |ListBelow(byValue, 0x1_0000)| == PidCount()
      ensures forall d :: d in ListBelow(byValue, 0x1_0000) <==> d in Descriptors()
      ensures forall i, j :: 0 <= i < j < |ListBelow(byValue, 0x1_0000)| ==>
        ListBelow(byValue, 0x1_0000)[i].value < ListBelow(byValue, 0x1_0000)[j].value
    {
      FullListing(byValue, 0x1_0000);
      assert PidCount() == |Descriptors()|;
    }
  }

  /** The listing of a whole value index names each of its descriptors once,
      in strictly increasing PID order. (`n` stands for 0x1_0000, for the
      reason given at ListedAreImage.) */
  lemma FullListing(m: map<u16, PidDescriptor>, n: int)
    requires n == 0x1_0000
    requires forall k :: k in m ==> m[k].value == k
    ensures |ListBelow(m, n)| == |Image(m)|
    ensures forall d :: d in ListBelow(m, n) <==> d in Image(m)
    ensures forall i, j :: 0 <= i < j < |ListBelow(m, n)| ==> ListBelow(m, n)[i].value < ListBelow(m, n)[j].value
  {
    ListBelowIncreasing(m, n);
    IncreasingListingSize(ListBelow(m, n));
    ListedAreImage(m, n);
  }

  /** Lookups round-trip: a descriptor of the store is found under its own
      value and its own name. */
  lemma LookupRoundTrip(store: PidStore, d: PidDescriptor)
    requires store.Valid() && d in store.Descriptors()
    ensures store.LookupByValue(d.value) == Some(d)
    ensures store.LookupByName(d.name) == Some(d)
  {
    var v :| v in store.byValue && store.byValue[v] == d;
  }

  /** A store built from unique descriptors finds each of them under its
      value and its name, finds nothing under any other key, and counts
      exactly the input. */
  lemma BuiltStoreLookups(store: PidStore, pids: seq<PidDescriptor>)
    requires UniqueNamesAndValues(pids) && store.BuiltFrom(pids)
    ensures store.Valid()
    ensures forall i :: 0 <= i < |pids| ==>
      store.LookupByValue(pids[i].value) == Some(pids[i]) && store.LookupByName(pids[i].name) == Some(pids[i])
    ensures forall v :: store.LookupByValue(v).None? <==> v !in ValuesOf(pids)
    ensures forall n :: store.LookupByName(n).None? <==> n !in NamesOf(pids)
    ensures store.PidCount() == |pids|
  {
    BuiltIndexesAgree(pids);
    ValueIndexFiled(pids);
    ValueIndexComplete(pids);
    NameIndexFiled(pids);
    NameIndexComplete(pids);
  }
}
