/**
 * Merging stored settings into the discovered inventory. Each card takes the first
 * settings entry whose "mac" equals its own, and copies from it the role, the address
 * and the gateway that the entry has keys for.
 */
module Reconcile {
  import opened Wrappers
  import opened Inventory
  import opened Persistence

  /** One stored settings block, as read back from the settings file. */
  type Setting = map<string, string>

  /** Whether a settings entry is about the card with hardware address `mac`. */
  predicate Matches(e: Setting, mac: string)
  {
    "mac" in e && e["mac"] == mac
  }

  /** The first settings entry about `mac`, if any. */
  function FirstMatch(settings: seq<Setting>, mac: string): (r: Option<Setting>)
    ensures r.None? <==> forall i :: 0 <= i < |settings| ==> !Matches(settings[i], mac)
    ensures r.Some? ==>
      exists i :: 0 <= i < |settings| && settings[i] == r.value && Matches(settings[i], mac)
        && forall j :: 0 <= j < i ==> !Matches(settings[j], mac)
  {
    if settings == [] then None
    else if Matches(settings[0], mac) then Some(settings[0])
    else
      var r := FirstMatch(settings[1..], mac);
      assert r.Some? ==>
        (exists i :: 0 < i < |settings| && settings[i] == r.value && Matches(settings[i], mac)
                     && forall j :: 0 <= j < i ==> !Matches(settings[j], mac)) by {
        if r.Some? {
          var i :| 0 <= i < |settings| - 1 && settings[1..][i] == r.value && Matches(settings[1..][i], mac)
            && forall j :: 0 <= j < i ==> !Matches(settings[1..][j], mac);
          assert forall j :: 0 < j < i + 1 ==> settings[j] == settings[1..][j - 1];
        }
      }
      r
  }

  /** `card` with the role, address and gateway of `e` wherever `e` has the key. */
  function Override(card: EthernetCard, e: Setting): EthernetCard
  {
    card.(
      useFor := if "use_for" in e then e["use_for"] else card.useFor,
      ip := if "ip" in e then e["ip"] else card.ip,
      gateway := if "gateway" in e then e["gateway"] else card.gateway)
  }

  /** A discovered card after the stored settings are applied to it. With no entry
      about its mac the override map stays empty, and the card is left as it is. */
  function Merge(card: EthernetCard, settings: seq<Setting>): (r: EthernetCard)
    ensures r.kind == card.kind && r.name == card.name && r.mac == card.mac && r.vendor == card.vendor
  {
    var e := FirstMatch(settings, card.mac).GetOr(map[]);
    Override(card, e)
  }

  /** The merged inventory, built card by card as the reconciliation loop does. */
  function MergeAll(cards: seq<EthernetCard>, settings: seq<Setting>): seq<EthernetCard>
  {
    if cards == [] then []
    else MergeAll(cards[..|cards| - 1], settings) + [Merge(cards[|cards| - 1], settings)]
  }

  /** The merged inventory has one card per discovered card, in the same order: card `i`
      is discovered card `i` merged. */
  lemma {:induction false} MergeAllPointwise(cards: seq<EthernetCard>, settings: seq<Setting>)
    ensures |MergeAll(cards, settings)| == |cards|
    ensures forall i :: 0 <= i < |cards| ==> MergeAll(cards, settings)[i] == Merge(cards[i], settings)
  {
    if cards != [] {
      var front := cards[..|cards| - 1];
      MergeAllPointwise(front, settings);
      assert forall i :: 0 <= i < |front| ==> front[i] == cards[i];
    }
  }

  /** Merging one more card appends exactly its merged form. */
  lemma MergeAllExtend(cards: seq<EthernetCard>, settings: seq<Setting>, i: nat)
    requires i < |cards|
    ensures MergeAll(cards[..i + 1], settings) == MergeAll(cards[..i], settings) + [Merge(cards[i], settings)]
  {
    assert cards[..i + 1][..i] == cards[..i];
  }

  /** Merging keeps the inventory: same length and order, and every card keeps the
      type, name, mac and vendor it was discovered with. So no stale entry adds a card. */
  lemma MergePreservesInventory(cards: seq<EthernetCard>, settings: seq<Setting>)
    ensures var r := MergeAll(cards, settings);
      |r| == |cards|
      && forall i :: 0 <= i < |cards| ==>
           r[i].kind == cards[i].kind && r[i].name == cards[i].name
           && r[i].mac == cards[i].mac && r[i].vendor == cards[i].vendor
  {
    MergeAllPointwise(cards, settings);
  }

  /** First match wins: the entry applied is the first one about the card's mac. */
  lemma MergeUsesFirstMatch(card: EthernetCard, settings: seq<Setting>, i: nat)
    requires i < |settings| && Matches(settings[i], card.mac)
    requires forall j :: 0 <= j < i ==> !Matches(settings[j], card.mac)
    ensures Merge(card, settings) == Override(card, settings[i])
  {
    var r := FirstMatch(settings, card.mac);
    var k :| 0 <= k < |settings| && settings[k] == r.value && Matches(settings[k], card.mac)
      && forall j :: 0 <= j < k ==> !Matches(settings[j], card.mac);
    assert k == i;
  }

  /** Entries about `mac`, in their order. */
  function AboutMac(settings: seq<Setting>, mac: string): (r: seq<Setting>)
    ensures forall e :: e in r ==> e in settings && Matches(e, mac)
  {
    if settings == [] then []
    else (if Matches(settings[0], mac) then [settings[0]] else []) + AboutMac(settings[1..], mac)
  }

  /** Entries without a "mac" key, or about another card, never affect a card:
      merging against only the entries about its mac gives the same card. */
  lemma {:induction false} MergeIgnoresOtherEntries(card: EthernetCard, settings: seq<Setting>)
    ensures Merge(card, settings) == Merge(card, AboutMac(settings, card.mac))
  {
    if settings != [] && !Matches(settings[0], card.mac) {
      MergeIgnoresOtherEntries(card, settings[1..]);
      assert FirstMatch(settings, card.mac) == FirstMatch(settings[1..], card.mac);
    }
  }

  /** Each of the role, address and gateway is taken from the entry exactly when the entry
      has its key, even when the value stored there is empty, and is kept otherwise; the
      other fields are never touched. */
  lemma OverrideKeys(card: EthernetCard, e: Setting)
    ensures var r := Override(card, e);
      && r == card.(useFor := r.useFor, ip := r.ip, gateway := r.gateway)
      && ("use_for" in e ==> r.useFor == e["use_for"])
      && ("use_for" !in e ==> r.useFor == card.useFor)
      && ("ip" in e ==> r.ip == e["ip"])
      && ("ip" !in e ==> r.ip == card.ip)
      && ("gateway" in e ==> r.gateway == e["gateway"])
      && ("gateway" !in e ==> r.gateway == card.gateway)
    ensures Override(card, map[]) == card
  {
  }

  /** Only the "use_for", "ip" and "gateway" keys of an entry matter: two entries that agree
      on those override a card the same way, whatever else they hold. */
  lemma OverrideOnlyRoleKeys(card: EthernetCard, e: Setting, e': Setting)
    requires forall k :: k in {"use_for", "ip", "gateway"} ==> (k in e <==> k in e') && (k in e ==> e[k] == e'[k])
    ensures Override(card, e) == Override(card, e')
  {
  }

  /** A card no stored entry is about comes out of the merge unchanged. */
  lemma MergeUnmatched(card: EthernetCard, settings: seq<Setting>)
    requires forall i :: 0 <= i < |settings| ==> !Matches(settings[i], card.mac)
    ensures Merge(card, settings) == card
  {
  }

  /** Cards that share a mac also share their role, address and gateway. Freshly
      discovered cards (all empty) satisfy this whatever their macs. */
  predicate AgreeByMac(cards: seq<EthernetCard>)
  {
    forall i, j :: 0 <= i < |cards| && 0 <= j < |cards| && cards[i].mac == cards[j].mac ==>
      cards[i].useFor == cards[j].useFor && cards[i].ip == cards[j].ip && cards[i].gateway == cards[j].gateway
  }

  /** Overriding with a saved card's entry copies that card's role, address and gateway. */
  lemma OverrideWithRecord(card: EthernetCard, saved: EthernetCard, typeName: CardType -> string)
    ensures Override(card, Record(saved, typeName))
         == card.(useFor := saved.useFor, ip := saved.ip, gateway := saved.gateway)
  {
  }

  /** Two cards with the same mac and role fields come out of a merge with the same role fields. */
  lemma MergeSameMac(a: EthernetCard, b: EthernetCard, settings: seq<Setting>)
    requires a.mac == b.mac && a.useFor == b.useFor && a.ip == b.ip && a.gateway == b.gateway
    ensures var ma, mb := Merge(a, settings), Merge(b, settings);
      ma.useFor == mb.useFor && ma.ip == mb.ip && ma.gateway == mb.gateway
  {
  }

  /** Merging is idempotent: merging again, against the entries the merged cards are
      saved as, changes nothing. */
  lemma MergeIdempotent(cards: seq<EthernetCard>, settings: seq<Setting>, typeName: CardType -> string)
    requires AgreeByMac(cards)
    ensures MergeAll(cards, Records(MergeAll(cards, settings), typeName)) == MergeAll(cards, settings)
  {
    var m := MergeAll(cards, settings);
    var saved := Records(m, typeName);
    MergeAllPointwise(cards, settings);
    MergeAllPointwise(cards, saved);
    forall i | 0 <= i < |cards|
      ensures Merge(cards[i], saved) == m[i]
    {
      MergeAgain(cards, settings, typeName, i);
    }
  }

  /** The step of MergeIdempotent for card `i`. */
  lemma MergeAgain(cards: seq<EthernetCard>, settings: seq<Setting>, typeName: CardType -> string, i: nat)
    requires AgreeByMac(cards) && i < |cards|
    ensures Merge(cards[i], Records(MergeAll(cards, settings), typeName)) == Merge(cards[i], settings)
  {
    var m := MergeAll(cards, settings);
    MergeAllPointwise(cards, settings);
    var saved := Records(m, typeName);
    var mac := cards[i].mac;
    assert Matches(saved[i], mac);
    var r := FirstMatch(saved, mac);
    var j :| 0 <= j < |saved| && saved[j] == r.value && Matches(saved[j], mac)
      && forall k :: 0 <= k < j ==> !Matches(saved[k], mac);
    MergeUsesFirstMatch(cards[i], saved, j);
    OverrideWithRecord(cards[i], m[j], typeName);
    assert cards[j].mac == mac;
    MergeSameMac(cards[j], cards[i], settings);
  }

  /** Any freshly discovered inventory agrees by mac, so its merge is idempotent. */
  lemma UndecidedAgree(cards: seq<EthernetCard>)
    requires forall i :: 0 <= i < |cards| ==> Undecided(cards[i])
    ensures AgreeByMac(cards)
  {
  }
}
