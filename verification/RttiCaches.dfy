/** Memo tables for type names and class hierarchies, with their budgets. */
module RttiCaches {
  import opened Common
  import opened Preorder

  datatype TypeName = TypeName(descriptor: nat, decorated: string, demangled: string)

  /** A base-class descriptor before its type name is looked up. */
  datatype RawBase = RawBase(descriptor: nat, typeDescriptor: nat, contained: nat)

  datatype BaseClass = BaseClass(index: nat, raw: RawBase, decorated: string, name: string)

  datatype Header = Header(attributes: nat, baseArray: nat, count: nat)

  datatype Hierarchy = Hierarchy(attributes: nat, baseArray: nat, bases: seq<BaseClass>)

  /** What the image says, read without any cache: a type descriptor, a hierarchy header, and
      the descriptor at one index of a base-class array. */
  datatype Image = Image(
    typeName: nat -> Option<TypeName>, header: nat -> Option<Header>, rawBase: (nat, nat) -> Option<RawBase>)

  datatype Limits = Limits(baseClasses: nat, nameBytes: nat)

  function NameBytes(t: TypeName): nat { |t.decorated| + |t.demangled| }

  function BaseNameBytes(bases: seq<BaseClass>): nat {
    if bases == [] then 0
    else BaseNameBytes(bases[..|bases| - 1]) + |bases[|bases| - 1].decorated| + |bases[|bases| - 1].name|
  }

  // ----- the pure parser -----

  function PureBase(image: Image, h: Header, index: nat): Option<BaseClass> {
    match image.rawBase(h.baseArray, index)
    case None => None
    case Some(raw) =>
      if index + 1 + raw.contained > h.count then None
      else
        match image.typeName(raw.typeDescriptor)
        case None => None
        case Some(t) => Some(BaseClass(index, raw, t.decorated, t.demangled))
  }

  /** The first `n` bases, if all of them parse. */
  function PureBases(image: Image, h: Header, n: nat): Option<seq<BaseClass>> {
    if n == 0 then Some([])
    else
      match PureBases(image, h, n - 1)
      case None => None
      case Some(before) =>
        match PureBase(image, h, n - 1)
        case None => None
        case Some(base) => Some(before + [base])
  }

  function Contained(bases: seq<BaseClass>): seq<nat> {
    seq(|bases|, k requires 0 <= k < |bases| => bases[k].raw.contained)
  }

  ghost function PureHierarchy(image: Image, rva: nat): Option<Hierarchy> {
    match image.header(rva)
    case None => None
    case Some(h) =>
      if h.count == 0 then None
      else
        match PureBases(image, h, h.count)
        case None => None
        case Some(bases) =>
          if Listing(Contained(bases)) then Some(Hierarchy(h.attributes, h.baseArray, bases)) else None
  }

  lemma {:induction false} AllBasesParsed(image: Image, h: Header, n: nat)
    requires PureBases(image, h, n).Some?
    ensures |PureBases(image, h, n).value| == n
  {
    if n > 0 { AllBasesParsed(image, h, n - 1); }
  }

  /** The locator's separate test of the root's count never rejects a parsed hierarchy. */
  lemma RootTestIsImplied(image: Image, rva: nat)
    requires PureHierarchy(image, rva).Some?
    ensures var bases := PureHierarchy(image, rva).value.bases; bases != [] && bases[0].raw.contained + 1 == |bases|
  {
    RootCountIsImplied(Contained(PureHierarchy(image, rva).value.bases));
  }

  lemma {:induction false} FailedBaseFailsAll(image: Image, h: Header, k: nat, n: nat)
    requires k <= n && PureBases(image, h, k).None?
    ensures PureBases(image, h, n).None?
    decreases n
  {
    if k < n { FailedBaseFailsAll(image, h, k, n - 1); }
  }

  // ----- weights of cached entries -----

  function TypeWeight(t: Option<TypeName>): nat { if t.Some? then NameBytes(t.value) else 0 }

  function HierarchyNames(h: Option<Hierarchy>): nat { if h.Some? then BaseNameBytes(h.value.bases) else 0 }

  function HierarchyBases(h: Option<Hierarchy>): nat { if h.Some? then |h.value.bases| else 0 }

  // ----- the caches -----

  class ParseCaches {
    const image: Image
    const limits: Limits
    var typeNames: map<nat, Option<TypeName>>
    var hierarchies: map<nat, Option<Hierarchy>>
    var baseClasses: nat
    var nameBytes: nat
    var exhausted: bool

    constructor (image: Image, limits: Limits)
      ensures Valid() && !exhausted && this.image == image && this.limits == limits
    {
      this.image, this.limits := image, limits;
      typeNames, hierarchies, baseClasses, nameBytes, exhausted := map[], map[], 0, 0, false;
    }

    /** Entries are what uncached parsing returns; the counters are exactly the sums over the
        entries and stay within their caps. */
    ghost predicate Valid()
      reads this
    {
      && (forall rva :: rva in typeNames ==> typeNames[rva] == image.typeName(rva))
      && (forall rva :: rva in hierarchies ==> hierarchies[rva] == PureHierarchy(image, rva))
      && nameBytes == Total(typeNames, TypeWeight) + Total(hierarchies, HierarchyNames) <= limits.nameBytes
      && baseClasses == Total(hierarchies, HierarchyBases) <= limits.baseClasses
    }

    /** Some type name no longer fits the name budget. */
    ghost predicate NameTooLarge(rva: nat)
      reads this`nameBytes
    {
      image.typeName(rva).Some? && nameBytes + NameBytes(image.typeName(rva).value) > limits.nameBytes
    }

    /** The type name of the base at one index no longer fits the name budget. */
    ghost predicate BaseNameTooLarge(h: Header, index: nat)
      reads this`nameBytes
    {
      var raw := image.rawBase(h.baseArray, index);
      raw.Some? && index + 1 + raw.value.contained <= h.count && NameTooLarge(raw.value.typeDescriptor)
    }

    /** So for one of the bases of the hierarchy at an address. */
    ghost predicate SomeBaseNameTooLarge(rva: nat)
      reads this`nameBytes
    {
      && image.header(rva).Some?
      && var h := image.header(rva).value;
         exists index: nat :: index < h.count && BaseNameTooLarge(h, index)
    }

    /** The hierarchy no longer fits one of the budgets. */
    ghost predicate HierarchyTooLarge(rva: nat)
      reads this`nameBytes, this`baseClasses
    {
      && PureHierarchy(image, rva).Some?
      && var bases := PureHierarchy(image, rva).value.bases;
         baseClasses + |bases| > limits.baseClasses || nameBytes + BaseNameBytes(bases) > limits.nameBytes
    }

    /** Charge name bytes, or mark the caches exhausted without charging. */
    method ReserveNameBytes(bytes: nat) returns (ok: bool)
      modifies this`nameBytes, this`exhausted
      ensures ok <==> old(nameBytes) + bytes <= limits.nameBytes
      ensures nameBytes == old(nameBytes) + if ok then bytes else 0
      ensures exhausted == (old(exhausted) || !ok)
    {
      ok := nameBytes + bytes <= limits.nameBytes;
      if ok { nameBytes := nameBytes + bytes; } else { exhausted := true; }
    }

    /** A type name, parsed at most once. Unless the budget ran out, the answer is the pure parse. */
    method LookupTypeName(rva: nat) returns (t: Option<TypeName>)
      requires Valid()
      modifies this`typeNames, this`nameBytes, this`exhausted
      ensures Valid() && (old(exhausted) ==> exhausted)
      ensures !exhausted ==> t == image.typeName(rva) && rva in typeNames
      ensures exhausted && !old(exhausted) ==> t.None? && NameTooLarge(rva)
    {
      hide Total, PureHierarchy;
      if rva in typeNames { return typeNames[rva]; }
      t := image.typeName(rva);
      TotalInsert(typeNames, rva, t, TypeWeight);
      if t.Some? {
        var ok := ReserveNameBytes(NameBytes(t.value));
        if !ok { return None; }
      }
      typeNames := typeNames[rva := t];
    }

    /** One base class, its type name looked up in the caches. */
    method ParseBase(h: Header, index: nat) returns (base: Option<BaseClass>)
      requires Valid()
      modifies this`typeNames, this`nameBytes, this`exhausted
      ensures Valid() && (old(exhausted) ==> exhausted)
      ensures !exhausted ==> base == PureBase(image, h, index)
      ensures exhausted && !old(exhausted) ==> base.None? && BaseNameTooLarge(h, index)
    {
      hide Valid;
      var raw := image.rawBase(h.baseArray, index);
      if raw.None? || index + 1 + raw.value.contained > h.count { return None; }
      var t := LookupTypeName(raw.value.typeDescriptor);
      if t.None? { return None; }
      base := Some(BaseClass(index, raw.value, t.value.decorated, t.value.demangled));
    }

    /** A hierarchy parsed through the caches: all bases in order, then the preorder check. */
    method ParseHierarchy(rva: nat) returns (parsed: Option<Hierarchy>)
      requires Valid() && !exhausted
      modifies this`typeNames, this`nameBytes, this`exhausted
      ensures Valid() && (!exhausted ==> parsed == PureHierarchy(image, rva))
      ensures exhausted ==> SomeBaseNameTooLarge(rva)
    {
      hide Valid;
      var header := image.header(rva);
      if header.None? || header.value.count == 0 { return None; }
      var h, bases := header.value, [];
      for index := 0 to h.count
        invariant Valid() && !exhausted && PureBases(image, h, index) == Some(bases)
      {
        var base := ParseBase(h, index);
        if base.None? {
          if !exhausted { FailedBaseFailsAll(image, h, index + 1, h.count); }
          return None;
        }
        bases := bases + [base.value];
      }
      AllBasesParsed(image, h, h.count);
      var ok := HasValidPreorderSpans(Contained(bases));
      parsed := if ok then Some(Hierarchy(h.attributes, h.baseArray, bases)) else None;
    }

    /** A hierarchy, parsed at most once and charged for its bases and their names. */
    method LookupHierarchy(rva: nat) returns (parsed: Option<Hierarchy>)
      requires Valid() && !exhausted
      modifies this
      ensures Valid() && (!exhausted ==> parsed == PureHierarchy(image, rva) && rva in hierarchies)
      ensures exhausted ==> parsed.None? && hierarchies == old(hierarchies) && baseClasses == old(baseClasses)
      ensures exhausted ==> HierarchyTooLarge(rva) || SomeBaseNameTooLarge(rva)
    {
      hide Total, PureHierarchy;
      if rva in hierarchies { return hierarchies[rva]; }
      parsed := ParseHierarchy(rva);
      if exhausted { return None; }
      TotalInsert(hierarchies, rva, parsed, HierarchyNames);
      TotalInsert(hierarchies, rva, parsed, HierarchyBases);
      if parsed.Some? {
        if baseClasses + |parsed.value.bases| > limits.baseClasses {
          exhausted := true;
          return None;
        }
        var ok := ReserveNameBytes(BaseNameBytes(parsed.value.bases));
        if !ok { return None; }
        baseClasses := baseClasses + |parsed.value.bases|;
      }
      hierarchies := hierarchies[rva := parsed];
    }
  }
}
