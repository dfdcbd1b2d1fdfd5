/** Observer sites: the cross-references whose accessed bytes lie in the file, each with the
    terminated text that stands at its target, if any. */
module EeSites {
  import opened Common
  import opened ElfLoad
  import opened EeBlocks

  const MIN_ANCHOR_BYTES := 4

  // ----- string anchors -----

  predicate IsText(bytes: seq<Byte>) { forall k :: 0 <= k < |bytes| ==> Printable(bytes[k]) }

  /** The first NUL at or after `at`, or the end. */
  function FirstNul(bytes: seq<Byte>, at: nat): (nul: nat)
    requires at <= |bytes|
    ensures at <= nul <= |bytes|
    ensures forall k :: at <= k < nul ==> bytes[k] != 0
    ensures nul < |bytes| ==> bytes[nul] == 0
    decreases |bytes| - at
  {
    if at == |bytes| || bytes[at] == 0 then at else FirstNul(bytes, at + 1)
  }

  /** The text at the start of `bytes`, if it is long enough, printable and terminated. */
  function Text(bytes: seq<Byte>): Option<seq<Byte>> {
    var nul := FirstNul(bytes, 0);
    if nul == |bytes| || nul < MIN_ANCHOR_BYTES || !IsText(bytes[..nul]) then None else Some(bytes[..nul])
  }

  /** The bytes searched for an anchor: the rest of the mapping's file bytes, up to the limit. */
  function Window(segment: Segment, bytes: seq<Byte>, maximum: nat, target: nat): Option<seq<Byte>>
    requires segment.address <= target <= segment.FileEnd()
  {
    var remaining, start := segment.FileEnd() - target, segment.fileOffset + (target - segment.address);
    var end := start + if remaining < maximum then remaining else maximum;
    if end <= |bytes| then Some(bytes[start..end]) else None
  }

  /** The text at a guest address, looked up through the mapping at or below it. */
  function Anchor(mapping: Mapping, bytes: seq<Byte>, maximum: nat, target: nat): Option<seq<Byte>> {
    var bound := UpperBound(mapping, target);
    if bound == 0 || target >= mapping[bound - 1].FileEnd() then None
    else
      match Window(mapping[bound - 1], bytes, maximum, target)
      case None => None
      case Some(window) => Text(window)
  }

  /** `value` and a terminator stand at `target`, in the file bytes of one mapping and within the limit. */
  ghost predicate IsAnchor(mapping: Mapping, bytes: seq<Byte>, maximum: nat, target: nat, value: seq<Byte>) {
    && MIN_ANCHOR_BYTES <= |value| < maximum && IsText(value)
    && exists s :: && s in mapping && s.address <= target && target + |value| < s.FileEnd()
                   && StandsAt(s, bytes, target, value)
  }

  predicate StandsAt(s: Segment, bytes: seq<Byte>, target: nat, value: seq<Byte>)
    requires s.address <= target
  {
    var offset := s.fileOffset + (target - s.address);
    offset + |value| < |bytes| && bytes[offset..offset + |value|] == value && bytes[offset + |value|] == 0
  }

  lemma TextIsExact(bytes: seq<Byte>, value: seq<Byte>)
    ensures Text(bytes) == Some(value) <==>
              && MIN_ANCHOR_BYTES <= |value| < |bytes| && IsText(value)
              && bytes[..|value|] == value && bytes[|value|] == 0
  {
    var nul := FirstNul(bytes, 0);
    if MIN_ANCHOR_BYTES <= |value| < |bytes| && IsText(value) && bytes[..|value|] == value && bytes[|value|] == 0 {
      forall k | 0 <= k < |value| ensures bytes[k] != 0 {
        assert bytes[k] == value[k];
      }
      assert nul == |value|;
    }
  }

  /** Every mapping's file bytes lie in the file. */
  predicate InFileBytes(mapping: Mapping, bytes: seq<Byte>) {
    forall s :: s in mapping ==> s.fileOffset + s.fileSize <= |bytes|
  }

  lemma WindowIsExact(s: Segment, bytes: seq<Byte>, maximum: nat, target: nat, value: seq<Byte>)
    requires s.address <= target < s.FileEnd() && s.fileOffset + s.fileSize <= |bytes|
    ensures Window(s, bytes, maximum, target).Some?
    ensures Text(Window(s, bytes, maximum, target).value) == Some(value) <==>
              && MIN_ANCHOR_BYTES <= |value| < maximum && IsText(value)
              && target + |value| < s.FileEnd() && StandsAt(s, bytes, target, value)
  {
    hide Text, IsText;
    var window := Window(s, bytes, maximum, target).value;
    var offset := s.fileOffset + (target - s.address);
    TextIsExact(window, value);
    if |value| < |window| {
      assert window[..|value|] == bytes[offset..offset + |value|];
      assert window[|value|] == bytes[offset + |value|];
    }
  }

  /** An address has an anchor exactly when a terminated printable text stands there. */
  lemma AnchorIsExact(mapping: Mapping, bytes: seq<Byte>, maximum: nat, target: nat, value: seq<Byte>)
    requires InFileBytes(mapping, bytes)
    ensures Anchor(mapping, bytes, maximum, target) == Some(value) <==> IsAnchor(mapping, bytes, maximum, target, value)
  {
    hide Text, Window, IsText, StandsAt;
    var bound := UpperBound(mapping, target);
    if bound > 0 && target < mapping[bound - 1].FileEnd() {
      assert mapping[bound - 1] in mapping;
      WindowIsExact(mapping[bound - 1], bytes, maximum, target, value);
    }
    forall s | s in mapping && s.address <= target < s.FileEnd() ensures 0 < bound && s == mapping[bound - 1] {
      OnlyLowerContains(mapping, bound, target, 1, s);
    }
  }

  // ----- sites -----

  datatype Site = Site(xref: Observation, anchor: Option<seq<Byte>>)

  predicate HasSite(o: Observation) { o.Xref? && o.resolved.kind == FullyFileBacked }

  function SiteOf(anchor: nat -> Option<seq<Byte>>, o: Observation): Site { Site(o, anchor(o.target)) }

  /** The sites of a set of cross-references. */
  ghost function SitesFor(anchor: nat -> Option<seq<Byte>>, xrefs: set<Observation>): set<Site> {
    set o | o in xrefs && HasSite(o) :: SiteOf(anchor, o)
  }

  function TextBytes(site: Site): nat { if site.anchor.Some? then |site.anchor.value| else 0 }

  ghost function AllTextBytes(sites: set<Site>): nat {
    if sites == {} then 0
    else
      var site :| site in sites;
      TextBytes(site) + AllTextBytes(sites - {site})
  }

  lemma {:induction false} TextBytesSplit(sites: set<Site>, site: Site)
    requires site in sites
    ensures AllTextBytes(sites) == TextBytes(site) + AllTextBytes(sites - {site})
    decreases |sites|
  {
    var first :| first in sites && AllTextBytes(sites) == TextBytes(first) + AllTextBytes(sites - {first});
    if first != site {
      TextBytesSplit(sites - {first}, site);
      TextBytesSplit(sites - {site}, first);
      assert sites - {first} - {site} == sites - {site} - {first};
    }
  }

  lemma OneMoreSite(sites: set<Site>, site: Site)
    requires site !in sites
    ensures AllTextBytes(sites + {site}) == AllTextBytes(sites) + TextBytes(site)
  {
    TextBytesSplit(sites + {site}, site);
    assert sites + {site} - {site} == sites;
  }

  lemma OneMoreXref(anchor: nat -> Option<seq<Byte>>, xrefs: set<Observation>, o: Observation)
    ensures SitesFor(anchor, xrefs + {o}) == SitesFor(anchor, xrefs) + if HasSite(o) then {SiteOf(anchor, o)} else {}
  {
    if HasSite(o) { assert o in xrefs + {o}; }
    forall s | s in SitesFor(anchor, xrefs) ensures s in SitesFor(anchor, xrefs + {o}) {
      var x :| x in xrefs && HasSite(x) && SiteOf(anchor, x) == s;
      assert x in xrefs + {o};
    }
  }
}
