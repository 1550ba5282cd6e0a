/**
 * Concrete runs of the reconciliation and role logic, for two small inventories.
 */
module Scenarios {
  import opened Inventory
  import opened Commands
  import opened Reconcile
  import opened Roles

  /** A freshly discovered card. */
  function Discovered1(name: string, mac: string): EthernetCard
  {
    EthernetCard(CardType(0), name, mac, "", "", "", "")
  }

  /** A stored entry asking for a static address is merged into the card with that mac,
      and the static applier then brings it up with that address and, without a gateway,
      installs no route, whatever the commands' outcomes. */
  lemma StaticOverrideScenario(isAir: bool, address: string, oracle: Oracle)
    ensures var merged := MergeAll([Discovered1("eth0", "AA")],
                                   [map["mac" := "AA", "use_for" := "static", "ip" := "10.0.0.5/24"]]);
      && merged == [Discovered1("eth0", "AA").(useFor := "static", ip := "10.0.0.5/24")]
      && DispatchAll(isAir, address, Session(false, []), merged, oracle)
         == Session(false, [Ifconfig("eth0", "10.0.0.5/24")])
  {
    var card := Discovered1("eth0", "AA");
    var e := map["mac" := "AA", "use_for" := "static", "ip" := "10.0.0.5/24"];
    MergeUsesFirstMatch(card, [e], 0);
    assert [card][..0] == [];
    var merged := [card.(useFor := "static", ip := "10.0.0.5/24")];
    assert merged[..0] == [];
  }

  /** On a ground unit, two cards without a role both become DHCP clients, one client
      step each, in discovery order, and no hotspot is configured. */
  lemma GroundClientsScenario(address: string, oracle: Oracle)
    ensures DispatchAll(false, address, Session(false, []), [Discovered1("eth0", "AA"), Discovered1("eth1", "BB")], oracle)
         == Session(false, [Pump("eth0"), Pump("eth1")])
  {
    var a, b := Discovered1("eth0", "AA"), Discovered1("eth1", "BB");
    DispatchAllExtend(false, address, Session(false, []), [], a, oracle);
    assert [] + [a] == [a];
    DispatchAllExtend(false, address, Session(false, []), [a], b, oracle);
    assert [a] + [b] == [a, b];
  }

  /** Two cards asking for the hotspot role, when bring-up and the service start of the
      first one succeed: the first becomes the hotspot, and the second runs no command. */
  lemma TwoHotspotsScenario(address: string, oracle: Oracle)
    requires [Ifconfig("eth0", address)] in oracle
    requires [Ifconfig("eth0", address), StartHotspot("eth0", address)] in oracle
    ensures var first, second := Discovered1("eth0", "AA").(useFor := "hotspot"), Discovered1("eth1", "BB").(useFor := "hotspot");
      DispatchAll(false, address, Session(false, []), [first, second], oracle)
      == Session(true, [Ifconfig("eth0", address), StartHotspot("eth0", address)])
  {
    var first, second := Discovered1("eth0", "AA").(useFor := "hotspot"), Discovered1("eth1", "BB").(useFor := "hotspot");
    DispatchAllExtend(false, address, Session(false, []), [], first, oracle);
    assert [] + [first] == [first];
    var up := [Ifconfig("eth0", address)];
    assert [] + up == up;
    assert up + [StartHotspot("eth0", address)] == [Ifconfig("eth0", address), StartHotspot("eth0", address)];
    assert HotspotSetup(address, Session(false, []), first, oracle).session
        == Session(true, [Ifconfig("eth0", address), StartHotspot("eth0", address)]);
    DispatchAllExtend(false, address, Session(false, []), [first], second, oracle);
    assert [first] + [second] == [first, second];
  }
}
