/**
 * The role policy and the three role appliers, as functions of the card and of the
 * command history. The methods of the EthernetCards class are proved to compute
 * exactly these.
 */
module Roles {
  import opened Inventory
  import opened Commands

  /** The role a card is set up for. */
  datatype Role = Static | Hotspot | Client

  /** The `use_for` value that names a role. */
  function RoleName(r: Role): string
  {
    match r
    case Static => "static"
    case Hotspot => "hotspot"
    case Client => "client"
  }

  /** The `use_for` values that select a role explicitly. */
  const ExplicitRoles: set<string> := {"static", "hotspot", "client"}

  /** The address a static card is brought up with when it has none. */
  const DefaultStaticAddress: string := "192.168.3.1/24"

  /** The role policy: an explicit `use_for` is taken verbatim; anything else (an empty
      value, a typo) gives static on an air unit and client on a ground unit. */
  function EffectiveRole(useFor: string, isAir: bool): (r: Role)
    ensures useFor in ExplicitRoles ==> RoleName(r) == useFor
    ensures useFor !in ExplicitRoles ==> r == (if isAir then Static else Client)
  {
    if useFor == "static" then Static
    else if useFor == "hotspot" then Hotspot
    else if useFor == "client" then Client
    else if isAir then Static
    else Client
  }

  /** What the static or the client applier leaves behind: the card it updated and the command history. */
  datatype Applied = Applied(card: EthernetCard, issued: seq<Command>)

  /** The hotspot state of an EthernetCards object together with the command history. */
  datatype Session = Session(configured: bool, issued: seq<Command>)

  /** What processing one card leaves behind. */
  datatype Outcome = Outcome(card: EthernetCard, session: Session)

  /** The static applier, after the history `trace`: record the role, default an empty
      address, bring the interface up, and only if that succeeded and there is a gateway
      install a default route through it. */
  function StaticSetup(card: EthernetCard, oracle: Oracle, trace: seq<Command>): Applied
  {
    var c := card.(useFor := "static");
    var c := if c.ip == "" then c.(ip := DefaultStaticAddress) else c;
    var up := trace + [Ifconfig(c.name, c.ip)];
    if !(up in oracle) then Applied(c, up)
    else if c.gateway != "" then Applied(c, up + [DefaultRoute(c.gateway, c.name)])
    else Applied(c, up)
  }

  /** The static applier records its role and an address that is never empty, and
      changes nothing else in the card. It first brings the interface up with that
      address; it adds exactly one route step, through the gateway, exactly when the
      gateway is non-empty and bring-up succeeded, and otherwise issues nothing more. */
  lemma StaticSetupSpec(card: EthernetCard, oracle: Oracle, trace: seq<Command>)
    ensures var r := StaticSetup(card, oracle, trace);
      && r.card == card.(useFor := "static", ip := r.card.ip)
      && r.card.ip == (if card.ip == "" then DefaultStaticAddress else card.ip) && r.card.ip != ""
      && var up := trace + [Ifconfig(card.name, r.card.ip)];
         && (r.issued == up + [DefaultRoute(card.gateway, card.name)] <==> card.gateway != "" && (up in oracle))
         && (r.issued == up <==> !(card.gateway != "" && (up in oracle)))
  {
  }

  /** The client applier: record the role, then one DHCP-client step. */
  function ClientSetup(card: EthernetCard, trace: seq<Command>): Applied
  {
    Applied(card.(useFor := "client"), trace + [Pump(card.name)])
  }

  /** The client applier records its role and issues exactly one command, the DHCP client. */
  lemma ClientSetupSpec(card: EthernetCard, trace: seq<Command>)
    ensures var r := ClientSetup(card, trace);
      r.card == card.(useFor := "client") && r.issued == trace + [Pump(card.name)]
  {
  }

  /** The hotspot applier at `address`: nothing once a hotspot is configured; otherwise
      record the role, bring the interface up at the hotspot address and, if that
      succeeded, start the hotspot service, setting the flag only if that succeeded too. */
  function HotspotSetup(address: string, s: Session, card: EthernetCard, oracle: Oracle): Outcome
  {
    if s.configured then Outcome(card, s)
    else
      var c := card.(useFor := "hotspot");
      var up := s.issued + [Ifconfig(c.name, address)];
      if !(up in oracle) then Outcome(c, Session(false, up))
      else
        var start := up + [StartHotspot(c.name, address)];
        if !(start in oracle) then Outcome(c, Session(false, start))
        else Outcome(c, Session(true, start))
  }

  /** Once a hotspot is configured the hotspot applier runs no command and leaves the card
      alone. Otherwise it records its role, issues bring-up at the hotspot address, issues
      the service start exactly when bring-up succeeded, and sets the flag exactly when
      both succeeded: it aborts at the first failure. */
  lemma HotspotSetupSpec(address: string, s: Session, card: EthernetCard, oracle: Oracle)
    ensures var r := HotspotSetup(address, s, card, oracle);
      && (s.configured ==> r == Outcome(card, s))
      && (!s.configured ==>
            var up := s.issued + [Ifconfig(card.name, address)];
            var start := up + [StartHotspot(card.name, address)];
            && r.card == card.(useFor := "hotspot")
            && (r.session.issued == start <==> (up in oracle))
            && (r.session.issued == up <==> !(up in oracle))
            && (r.session.configured <==> (up in oracle) && (start in oracle)))
  {
  }

  /** Processing one card: the applier the policy picks runs on it. */
  function Dispatch(isAir: bool, address: string, s: Session, card: EthernetCard, oracle: Oracle): Outcome
  {
    match EffectiveRole(card.useFor, isAir)
    case Static =>
      var a := StaticSetup(card, oracle, s.issued);
      Outcome(a.card, Session(s.configured, a.issued))
    case Hotspot =>
      HotspotSetup(address, s, card, oracle)
    case Client =>
      var a := ClientSetup(card, s.issued);
      Outcome(a.card, Session(s.configured, a.issued))
  }

  /** Exactly one applier runs per card: the static or client applier leaves the hotspot
      state alone, and every applier that acts records its role in the card. */
  lemma DispatchRunsOneApplier(isAir: bool, address: string, s: Session, card: EthernetCard, oracle: Oracle)
    ensures var r, role := Dispatch(isAir, address, s, card, oracle), EffectiveRole(card.useFor, isAir);
      && (role == Static ==>
            var a := StaticSetup(card, oracle, s.issued); r == Outcome(a.card, Session(s.configured, a.issued)))
      && (role == Client ==>
            var a := ClientSetup(card, s.issued); r == Outcome(a.card, Session(s.configured, a.issued)))
      && (role == Hotspot ==> r == HotspotSetup(address, s, card, oracle))
      && (role != Hotspot ==> r.session.configured == s.configured)
      && (!(role == Hotspot && s.configured) ==> r.card.useFor == RoleName(role))
  {
  }

  /** The session after processing `cards` in order from `s`. */
  function DispatchAll(isAir: bool, address: string, s: Session, cards: seq<EthernetCard>, oracle: Oracle): Session
  {
    if cards == [] then s
    else
      var before := DispatchAll(isAir, address, s, cards[..|cards| - 1], oracle);
      Dispatch(isAir, address, before, cards[|cards| - 1], oracle).session
  }

  /** Processing one more card continues from the session the earlier cards left. */
  lemma DispatchAllExtend(isAir: bool, address: string, s: Session, cards: seq<EthernetCard>,
                          card: EthernetCard, oracle: Oracle)
    ensures DispatchAll(isAir, address, s, cards + [card], oracle)
         == Dispatch(isAir, address, DispatchAll(isAir, address, s, cards, oracle), card, oracle).session
  {
    assert (cards + [card])[..|cards|] == cards;
  }

  /** The hotspot flag says whether the one hotspot-service start that ever succeeded has happened. */
  predicate Consistent(s: Session, oracle: Oracle)
  {
    CompletedHotspots(s.issued, oracle) == if s.configured then 1 else 0
  }

  /** The static applier starts no hotspot service. */
  lemma StaticSetupStartsNoHotspot(card: EthernetCard, oracle: Oracle, trace: seq<Command>)
    ensures CompletedHotspots(StaticSetup(card, oracle, trace).issued, oracle) == CompletedHotspots(trace, oracle)
  {
    var r := StaticSetup(card, oracle, trace);
    var up := trace + [Ifconfig(card.name, r.card.ip)];
    CompletedHotspotsStep(trace, Ifconfig(card.name, r.card.ip), oracle);
    if r.issued != up {
      CompletedHotspotsStep(up, DefaultRoute(card.gateway, card.name), oracle);
    }
  }

  /** The client applier starts no hotspot service. */
  lemma ClientSetupStartsNoHotspot(card: EthernetCard, trace: seq<Command>)
    ensures forall oracle: Oracle ::
      CompletedHotspots(ClientSetup(card, trace).issued, oracle) == CompletedHotspots(trace, oracle)
  {
    forall oracle: Oracle
      ensures CompletedHotspots(ClientSetup(card, trace).issued, oracle) == CompletedHotspots(trace, oracle)
    {
      CompletedHotspotsStep(trace, Pump(card.name), oracle);
    }
  }

  /** The hotspot applier keeps the flag consistent with the history: it sets the flag
      exactly when it completes a hotspot, and completes none once the flag is set. */
  lemma HotspotSetupConsistent(address: string, s: Session, card: EthernetCard, oracle: Oracle)
    requires Consistent(s, oracle)
    ensures Consistent(HotspotSetup(address, s, card, oracle).session, oracle)
  {
    if !s.configured {
      var up := s.issued + [Ifconfig(card.name, address)];
      CompletedHotspotsStep(s.issued, Ifconfig(card.name, address), oracle);
      if (up in oracle) {
        CompletedHotspotsStep(up, StartHotspot(card.name, address), oracle);
      }
    }
  }

  /** Processing a card keeps the flag consistent with the history, and never clears it. */
  lemma DispatchConsistent(isAir: bool, address: string, s: Session, card: EthernetCard, oracle: Oracle)
    requires Consistent(s, oracle)
    ensures var r := Dispatch(isAir, address, s, card, oracle).session;
      Consistent(r, oracle) && (s.configured ==> r.configured)
  {
    match EffectiveRole(card.useFor, isAir)
    case Static => StaticSetupStartsNoHotspot(card, oracle, s.issued);
    case Hotspot => HotspotSetupConsistent(address, s, card, oracle);
    case Client => ClientSetupStartsNoHotspot(card, s.issued);
  }

  /** Single hotspot: however many cards ask for the hotspot role, processing them all
      completes at most one hotspot in the whole history, and a set flag stays set. */
  lemma {:induction false} DispatchAllSingleHotspot(isAir: bool, address: string, s: Session,
                                                    cards: seq<EthernetCard>, oracle: Oracle)
    requires Consistent(s, oracle)
    ensures var r := DispatchAll(isAir, address, s, cards, oracle);
      && Consistent(r, oracle)
      && CompletedHotspots(r.issued, oracle) <= 1
      && (s.configured ==> r.configured)
  {
    if cards != [] {
      var front := cards[..|cards| - 1];
      DispatchAllSingleHotspot(isAir, address, s, front, oracle);
      DispatchConsistent(isAir, address, DispatchAll(isAir, address, s, front, oracle), cards[|cards| - 1], oracle);
    }
  }
}
