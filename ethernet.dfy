/**
 * The EthernetCards object: the discovered inventory, the unit's operating mode and
 * the single-hotspot flag, with the loader, the reconciliation loop, the role
 * dispatch and the three role appliers.
 */
module Ethernet {
  import opened Wrappers
  import opened Inventory
  import opened Commands
  import opened Reconcile
  import opened Persistence
  import opened Roles

  /** The address an ethernet hotspot is brought up with. */
  const DefaultHotspotAddress: string := "192.168.3.1"

  class EthernetCards {
    /** Whether this unit is the air unit; fixed for the object's lifetime. */
    const isAir: bool
    const unitId: string
    /** The command execution used by every applier of this object. */
    const runner: CommandRunner
    var hotspotConfigured: bool
    var hotspotAddress: string
    var cards: seq<EthernetCard>
    /** Every list of cards handed to the settings writer, in order. */
    ghost var saves: seq<seq<EthernetCard>>

    /** The hotspot flag together with the command history. */
    ghost function State(): Session
      reads this, runner
    {
      Session(hotspotConfigured, runner.issued)
    }

    /** The flag is set exactly when the one hotspot this object may run has been started. */
    ghost predicate Valid()
      reads this, runner
    {
      Consistent(State(), runner.oracle)
    }

    constructor (isAir: bool, unitId: string, oracle: Oracle)
      ensures Valid()
      ensures this.isAir == isAir && this.unitId == unitId
      ensures !hotspotConfigured && hotspotAddress == DefaultHotspotAddress
      ensures cards == [] && saves == []
      ensures fresh(runner) && runner.oracle == oracle && runner.issued == []
    {
      this.isAir := isAir;
      this.unitId := unitId;
      runner := new CommandRunner(oracle);
      hotspotConfigured := false;
      hotspotAddress := DefaultHotspotAddress;
      cards := [];
      saves := [];
    }

    /** Appends the manifest's cards to the inventory, in manifest order. A malformed
        descriptor ends loading, keeping the cards appended before it. */
    method ProcessManifest(manifest: Manifest)
      modifies this`cards
      ensures cards == old(cards) + Discover(manifest)
    {
      if manifest.Unreadable? {
        return;
      }
      var ds := manifest.cards;
      var i := 0;
      while i < |ds|
        invariant 0 <= i <= |ds|
        invariant forall j :: 0 <= j < i ==> ds[j].Descriptor?
        invariant cards == old(cards) + Discovered(ds[..i])
      {
        if ds[i].Malformed? {
          DiscoveredCut(ds, i);
          return;
        }
        DiscoveredExtend(ds, i);
        cards := cards + [FromDescriptor(ds[i])];
        i := i + 1;
      }
      assert ds[..i] == ds;
    }

    /** The card with the stored settings applied: a scan for the first entry about
        its mac, then a field-wise override for each key that entry has. */
    static method MergeCard(card: EthernetCard, settings: seq<Setting>) returns (r: EthernetCard)
      ensures r == Merge(card, settings)
    {
      var settingMap: Setting := map[];
      var i := 0;
      while i < |settings|
        invariant 0 <= i <= |settings|
        invariant forall j :: 0 <= j < i ==> !Matches(settings[j], card.mac)
        invariant settingMap == map[]
      {
        if "mac" in settings[i] && settings[i]["mac"] == card.mac {
          settingMap := settings[i];
          MergeUsesFirstMatch(card, settings, i);
          break;
        }
        i := i + 1;
      }
      r := card;
      if "use_for" in settingMap {
        r := r.(useFor := settingMap["use_for"]);
      }
      if "ip" in settingMap {
        r := r.(ip := settingMap["ip"]);
      }
      if "gateway" in settingMap {
        r := r.(gateway := settingMap["gateway"]);
      }
    }

    /** Loads the manifest, merges the stored settings (none when they cannot be read)
        into each card, saves the merged cards so far after every card, and then sets
        that card up. The applier works on a copy: what it changes is neither saved
        nor kept in the inventory. */
    method Configure(manifest: Manifest, stored: Option<seq<Setting>>)
      modifies this, runner
      ensures old(Valid()) ==> Valid()
      ensures cards == old(cards) + Discover(manifest)
      ensures hotspotAddress == old(hotspotAddress)
      ensures var merged := MergeAll(cards, stored.GetOr([]));
        && saves == old(saves) + Snapshots(merged)
        && State() == DispatchAll(isAir, hotspotAddress, old(State()), merged, runner.oracle)
    {
      ProcessManifest(manifest);
      ghost var start, saved := State(), saves;
      var settings := stored.GetOr([]);
      var saveCards: seq<EthernetCard> := [];
      var discovered := cards;
      var i := 0;
      while i < |discovered|
        invariant 0 <= i <= |discovered|
        invariant cards == discovered && hotspotAddress == old(hotspotAddress)
        invariant saveCards == MergeAll(discovered[..i], settings)
        invariant saves == saved + Snapshots(saveCards)
        invariant State() == DispatchAll(isAir, hotspotAddress, start, saveCards, runner.oracle)
      {
        var card := MergeCard(discovered[i], settings);
        assert saveCards + [card] == MergeAll(discovered[..i + 1], settings) by {
          MergeAllExtend(discovered, settings, i);
        }
        assert Snapshots(saveCards + [card]) == Snapshots(saveCards) + [saveCards + [card]] by {
          SnapshotsExtend(saveCards, card);
        }
        assert DispatchAll(isAir, hotspotAddress, start, saveCards + [card], runner.oracle)
            == Dispatch(isAir, hotspotAddress, State(), card, runner.oracle).session by {
          DispatchAllExtend(isAir, hotspotAddress, start, saveCards, card, runner.oracle);
        }
        saveCards := saveCards + [card];
        saves := saves + [saveCards];
        var applied := ProcessCard(card);
        i := i + 1;
      }
      assert discovered[..i] == discovered;
      assert Consistent(start, runner.oracle) ==> Valid() by {
        if Consistent(start, runner.oracle) {
          DispatchAllSingleHotspot(isAir, hotspotAddress, start, saveCards, runner.oracle);
        }
      }
    }

    /** Sets a card up for the role the policy picks; exactly one applier runs. */
    method ProcessCard(card: EthernetCard) returns (r: EthernetCard)
      modifies this`hotspotConfigured, runner
      ensures Outcome(r, State()) == Dispatch(isAir, hotspotAddress, old(State()), card, runner.oracle)
      ensures old(Valid()) ==> Valid()
    {
      ghost var before := State();
      assert Consistent(before, runner.oracle) ==>
        Consistent(Dispatch(isAir, hotspotAddress, before, card, runner.oracle).session, runner.oracle) by {
        if Consistent(before, runner.oracle) {
          DispatchConsistent(isAir, hotspotAddress, before, card, runner.oracle);
        }
      }
      if card.useFor == "static" {
        r := SetupStatic(runner, card);
        return;
      }
      if card.useFor == "hotspot" {
        r := SetupHotspot(card);
        return;
      }
      if card.useFor == "client" {
        r := SetupClient(runner, card);
        return;
      }
      if isAir {
        r := SetupStatic(runner, card);
      } else {
        r := SetupClient(runner, card);
      }
    }

    /** The hotspot applier. It does nothing once a hotspot is configured; otherwise the
        flag is set only after both of its commands succeed. */
    method SetupHotspot(card: EthernetCard) returns (r: EthernetCard)
      modifies this`hotspotConfigured, runner
      ensures Outcome(r, State()) == HotspotSetup(hotspotAddress, old(State()), card, runner.oracle)
      ensures old(Valid()) ==> Valid()
    {
      ghost var before := State();
      assert Consistent(before, runner.oracle) ==>
        Consistent(HotspotSetup(hotspotAddress, before, card, runner.oracle).session, runner.oracle) by {
        if Consistent(before, runner.oracle) {
          HotspotSetupConsistent(hotspotAddress, before, card, runner.oracle);
        }
      }
      r := card;
      if hotspotConfigured {
        return;
      }
      r := r.(useFor := "hotspot");
      var ok := runner.Run(Ifconfig(r.name, hotspotAddress));
      if !ok {
        return;
      }
      ok := runner.Run(StartHotspot(r.name, hotspotAddress));
      if !ok {
        return;
      }
      hotspotConfigured := true;
    }

    /** The static applier. Being static, it can reach no hotspot state. */
    static method SetupStatic(runner: CommandRunner, card: EthernetCard) returns (r: EthernetCard)
      modifies runner
      ensures Applied(r, runner.issued) == StaticSetup(card, runner.oracle, old(runner.issued))
    {
      r := card.(useFor := "static");
      if r.ip == "" {
        r := r.(ip := DefaultStaticAddress);
      }
      var ok := runner.Run(Ifconfig(r.name, r.ip));
      if !ok {
        return;
      }
      if r.gateway != "" {
        ok := runner.Run(DefaultRoute(r.gateway, r.name));
        if !ok {
          return;
        }
      }
    }

    /** The client applier. Being static, it can reach no hotspot state. */
    static method SetupClient(runner: CommandRunner, card: EthernetCard) returns (r: EthernetCard)
      modifies runner
      ensures Applied(r, runner.issued) == ClientSetup(card, old(runner.issued))
    {
      r := card.(useFor := "client");
      var ok := runner.Run(Pump(r.name));
      if !ok {
        return;
      }
    }

    /** The text the settings writer produces: every card's block, in order, each
        followed by a blank line. */
    static method SaveSettings(cards: seq<EthernetCard>, typeName: CardType -> string,
                               render: map<string, string> -> string) returns (contents: string)
      ensures contents == Rendered(cards, typeName, render)
    {
      contents := "";
      for i := 0 to |cards|
        invariant contents == Rendered(cards[..i], typeName, render)
      {
        var data := Record(cards[i], typeName);
        assert cards[..i + 1][..i] == cards[..i];
        contents := contents + render(data) + "\n\n";
      }
      assert cards[..|cards|] == cards;
    }
  }
}
