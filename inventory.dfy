/**
 * The inventory of ethernet cards and the hardware manifest it is built from.
 * The manifest is taken as already parsed: reading the file and the JSON parser are I/O.
 */
module Inventory {

  /** The hardware class of a card. Its string conversions live outside this model,
      so the type is kept as an opaque tag that is only copied around. */
  datatype CardType = CardType(tag: nat)

  /** One discovered ethernet card, with the fields persisted in the settings file. */
  datatype EthernetCard = EthernetCard(
    kind: CardType,
    name: string,
    mac: string,
    vendor: string,
    useFor: string,
    ip: string,
    gateway: string)

  /** One entry of the manifest's `cards` list: a readable descriptor, or one whose
      fields cannot be converted, which makes the loader stop with an exception. */
  datatype Descriptor =
    | Descriptor(kind: CardType, name: string, mac: string)
    | Malformed

  /** The manifest as the loader sees it: missing or unparsable (including a bad
      `hotspot` field, which is converted before any card), or a list of descriptors. */
  datatype Manifest =
    | Unreadable
    | Parsed(cards: seq<Descriptor>)

  /** A card as the loader creates it: type, name and mac from the descriptor, everything else empty. */
  function FromDescriptor(d: Descriptor): EthernetCard
    requires d.Descriptor?
  {
    EthernetCard(d.kind, d.name, d.mac, "", "", "", "")
  }

  /** A card that carries no vendor, role, address or gateway yet. */
  predicate Undecided(c: EthernetCard)
  {
    c.vendor == "" && c.useFor == "" && c.ip == "" && c.gateway == ""
  }

  /** The cards the loader appends for a list of descriptors: one per descriptor, in
      order, up to the first malformed one, where the exception ends the loop. */
  function Discovered(ds: seq<Descriptor>): seq<EthernetCard>
  {
    if ds == [] || ds[0].Malformed? then []
    else [FromDescriptor(ds[0])] + Discovered(ds[1..])
  }

  /** Loading yields the cards of the descriptors before the first malformed one (of all
      of them when none is malformed), each in manifest order with only type, name and mac set. */
  lemma {:induction false} DiscoveredSpec(ds: seq<Descriptor>)
    ensures var r := Discovered(ds);
      && |r| <= |ds|
      && (forall i :: 0 <= i < |r| ==> ds[i].Descriptor? && r[i] == FromDescriptor(ds[i]))
      && (|r| < |ds| ==> ds[|r|].Malformed?)
      && (forall i :: 0 <= i < |r| ==> Undecided(r[i]))
  {
    if ds != [] && ds[0].Descriptor? {
      DiscoveredSpec(ds[1..]);
    }
  }

  /** The cards the loader appends for a manifest: none when it cannot be read, and
      otherwise the cards of the descriptors before the first malformed one, in manifest
      order, each with only its type, name and mac set. */
  function Discover(m: Manifest): (r: seq<EthernetCard>)
    ensures m.Unreadable? ==> r == []
    ensures m.Parsed? ==>
      && |r| <= |m.cards|
      && (forall i :: 0 <= i < |r| ==> m.cards[i].Descriptor? && r[i] == FromDescriptor(m.cards[i]))
      && (|r| < |m.cards| ==> m.cards[|r|].Malformed?)
      && (forall i :: 0 <= i < |r| ==> Undecided(r[i]))
  {
    match m
    case Unreadable => []
    case Parsed(ds) =>
      DiscoveredSpec(ds);
      Discovered(ds)
  }

  /** When every descriptor is readable, every one of them yields a card. */
  lemma DiscoveredAll(ds: seq<Descriptor>)
    requires forall i :: 0 <= i < |ds| ==> ds[i].Descriptor?
    ensures |Discovered(ds)| == |ds|
  {
    DiscoveredSpec(ds);
  }

  /** Loading stops at the first malformed descriptor: what follows it is never read. */
  lemma {:induction false} DiscoveredStopsAtMalformed(ds: seq<Descriptor>, rest: seq<Descriptor>)
    ensures Discovered(ds + [Malformed] + rest) == Discovered(ds + [Malformed])
  {
    if ds != [] && ds[0].Descriptor? {
      assert (ds + [Malformed] + rest)[1..] == ds[1..] + [Malformed] + rest;
      assert (ds + [Malformed])[1..] == ds[1..] + [Malformed];
      DiscoveredStopsAtMalformed(ds[1..], rest);
    } else if ds == [] {
    } else {
    }
  }

  /** One more readable descriptor appends exactly its card. */
  lemma {:induction false} DiscoveredExtend(ds: seq<Descriptor>, i: nat)
    requires i < |ds| && forall j :: 0 <= j <= i ==> ds[j].Descriptor?
    ensures Discovered(ds[..i + 1]) == Discovered(ds[..i]) + [FromDescriptor(ds[i])]
  {
    var p, q := ds[..i + 1], ds[..i];
    assert forall k :: 0 <= k < |p| ==> p[k].Descriptor?;
    assert forall k :: 0 <= k < |q| ==> q[k].Descriptor?;
    var a, b := Discovered(p), Discovered(q);
    DiscoveredSpec(p);
    DiscoveredSpec(q);
    assert |a| == i + 1 && |b| == i;
    assert forall k :: 0 <= k < i ==> a[k] == FromDescriptor(p[k]) == FromDescriptor(q[k]) == b[k];
    assert a == b + [FromDescriptor(ds[i])];
  }

  /** The cards loaded for descriptors that are readable up to a malformed one at `i`,
      are the cards of the first `i` descriptors. */
  lemma {:induction false} DiscoveredCut(ds: seq<Descriptor>, i: nat)
    requires i < |ds| && ds[i].Malformed? && forall j :: 0 <= j < i ==> ds[j].Descriptor?
    ensures Discovered(ds) == Discovered(ds[..i])
  {
    var q := ds[..i];
    assert forall k :: 0 <= k < |q| ==> q[k].Descriptor?;
    var a, b := Discovered(ds), Discovered(q);
    DiscoveredSpec(ds);
    DiscoveredSpec(q);
    assert |a| == i && |b| == i;
    assert forall k :: 0 <= k < i ==> a[k] == b[k];
  }
}
