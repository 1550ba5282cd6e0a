# EthernetCards: discovery, reconciliation and role set-up of wired interfaces

A Dafny model of OpenHD's `EthernetCards` component, the part of the interface
service that takes charge of the wired network cards of an air or ground unit.
The component:

- loads the cards listed in the hardware manifest;
- merges each card with the user's stored settings, looked up by MAC address;
- writes the merged list back to the settings file;
- sets each card up as a static interface, a DHCP client or an ethernet hotspot.

At most one hotspot is ever configured per object.

The model has eight modules:

- `Wrappers`: the `Option` type.
- `Inventory`: the card record, and the manifest as a list of descriptors. Loading the manifest is `Discover`.
- `Commands`: the external commands with their exact command lines. `CommandRunner` runs them. An *oracle* decides success: the set of command histories whose last command succeeds.
- `Reconcile`: first-match lookup and the field-wise override (`Merge`, `MergeAll`).
- `Persistence`: the key/value record of a card, and the settings text as a series of rendered blocks.
- `Roles`: the role policy, and the three appliers as functions of the card and the command history.
- `Ethernet`: the class `EthernetCards` with fields and methods, each proved to compute the functions above.
- `Scenarios`: three concrete runs.

The single-hotspot rule is stated as a class invariant, `Valid()`: the hotspot flag is set exactly when the history holds one successful start of the hotspot service. It is proved to hold however many cards ask for the hotspot role.

## Model

| member | source | states |
|---|---|---|
| Ethernet.EthernetCards.constructor | OpenHD/ohd_interface/inc/EthernetCards.h:39-44 | A new object keeps its mode and unit id, has no hotspot, the default hotspot address 192.168.3.1, no cards, and satisfies the single-hotspot invariant |
| Inventory.Discover | OpenHD/ohd_interface/src/EthernetCards.cpp:93-118 | An unreadable manifest yields no cards. A parsed one yields one card per descriptor before the first malformed one (all of them when none is), in manifest order, each with only its type, name and mac set |
| Inventory.Discovered | OpenHD/ohd_interface/src/EthernetCards.cpp:101-110 | The loader's loop over the descriptors; specified by Inventory.DiscoveredSpec |
| Inventory.DiscoveredSpec | OpenHD/ohd_interface/src/EthernetCards.cpp:101-116 | Loading keeps the manifest's order and each card's type, name and mac. It stops exactly at the first malformed descriptor, keeping the cards before it. Every loaded card has an empty vendor, role, address and gateway |
| Inventory.DiscoveredAll | OpenHD/ohd_interface/src/EthernetCards.cpp:101-110 | A manifest with no malformed descriptor yields one card per descriptor |
| Inventory.DiscoveredStopsAtMalformed | OpenHD/ohd_interface/src/EthernetCards.cpp:101-117 | Whatever follows a malformed descriptor never reaches the inventory |
| Ethernet.EthernetCards.ProcessManifest | OpenHD/ohd_interface/src/EthernetCards.cpp:93-118 | The loop appends exactly the loaded cards to the inventory. A malformed descriptor ends it, and the cards already appended stay |
| Commands.Argv | OpenHD/ohd_interface/src/EthernetCards.cpp:165-183 | The program and argument vector of each command, as at 165-167, 179-181, 215-217, 229-231 and 262-264; specified by Commands.ArgvInjective |
| Commands.ArgvInjective | OpenHD/ohd_interface/src/EthernetCards.cpp:165-183 | Distinct commands have distinct command lines. A command line is a hotspot-service start exactly when it is the hotspot script run by /bin/bash |
| Commands.CommandRunner.Run | OpenHD/ohd_interface/src/EthernetCards.cpp:169 | Running a command appends it to the history; it succeeds exactly when the oracle accepts the new history |
| Reconcile.FirstMatch | OpenHD/ohd_interface/src/EthernetCards.cpp:61-67 | No entry is found exactly when no entry has the card's mac. Otherwise the entry found is the first one that has it |
| Reconcile.Merge | OpenHD/ohd_interface/src/EthernetCards.cpp:59-71 | Merging never changes the card's type, name, mac or vendor |
| Reconcile.MergeUsesFirstMatch | OpenHD/ohd_interface/src/EthernetCards.cpp:61-71 | When entry i is the first with the card's mac, the merged card is the card with that entry's present keys copied over |
| Reconcile.Override | OpenHD/ohd_interface/src/EthernetCards.cpp:69-71 | The three guarded copies; specified by Reconcile.OverrideKeys |
| Reconcile.OverrideKeys | OpenHD/ohd_interface/src/EthernetCards.cpp:69-71 | Each of use_for, ip and gateway is taken from the entry when the entry has that key, even with an empty value, and is kept when it has not; no other field changes |
| Reconcile.OverrideOnlyRoleKeys | OpenHD/ohd_interface/src/EthernetCards.cpp:69-71 | Entries that agree on use_for, ip and gateway override a card the same way, whatever else they hold |
| Reconcile.MergeUnmatched | OpenHD/ohd_interface/src/EthernetCards.cpp:59-71 | A card no entry is about keeps every field, since the override map stays empty |
| Reconcile.MergeIgnoresOtherEntries | OpenHD/ohd_interface/src/EthernetCards.cpp:61-67 | Entries about other macs, or with no mac, have no effect on a card |
| Reconcile.MergeAll | OpenHD/ohd_interface/src/EthernetCards.cpp:58-74 | The list the reconciliation loop builds; specified by Reconcile.MergeAllPointwise |
| Reconcile.MergeAllPointwise | OpenHD/ohd_interface/src/EthernetCards.cpp:58-74 | The merged list has one card per discovered card, in order, each merged on its own |
| Reconcile.MergePreservesInventory | OpenHD/ohd_interface/src/EthernetCards.cpp:58-74 | The merged list keeps the length and every card's type, name, mac and vendor |
| Reconcile.MergeIdempotent | OpenHD/ohd_interface/src/EthernetCards.cpp:58-74 | If cards that share a mac agree, merging the discovered cards with the records of their own merge gives that merge again |
| Reconcile.UndecidedAgree | OpenHD/ohd_interface/src/EthernetCards.cpp:101-108 | Freshly loaded cards with the same mac and the same type and name agree |
| Ethernet.EthernetCards.MergeCard | OpenHD/ohd_interface/src/EthernetCards.cpp:59-71 | The scan-and-break loop followed by the three guarded copies computes exactly Merge |
| Persistence.Record | OpenHD/ohd_interface/src/EthernetCards.cpp:294-302 | The seven keys a card is saved under; that reading it back overrides role, address and gateway with the saved card's is Reconcile.OverrideWithRecord |
| Reconcile.OverrideWithRecord | OpenHD/ohd_interface/src/EthernetCards.cpp:294-302 | Overriding a card with a saved card's record copies exactly that card's use_for, ip and gateway |
| Persistence.Snapshots | OpenHD/ohd_interface/src/EthernetCards.cpp:74-86 | The lists handed to the settings writer, one per iteration; specified by Persistence.SnapshotsArePrefixes |
| Persistence.SnapshotsArePrefixes | OpenHD/ohd_interface/src/EthernetCards.cpp:74-86 | The k-th save writes exactly the first k+1 merged cards |
| Persistence.Rendered | OpenHD/ohd_interface/src/EthernetCards.cpp:293-310 | The settings text of a list of cards; specified by Persistence.RenderedAppend and Persistence.RenderedBlock |
| Persistence.RenderedAppend | OpenHD/ohd_interface/src/EthernetCards.cpp:293-310 | The settings text of two lists of cards is the text of the first followed by the text of the second |
| Persistence.RenderedBlock | OpenHD/ohd_interface/src/EthernetCards.cpp:304-309 | Card i's block is the rendered record followed by a blank line, at its place in the text |
| Ethernet.EthernetCards.SaveSettings | OpenHD/ohd_interface/src/EthernetCards.cpp:281-313 | The writer's loop produces exactly the settings text of the cards |
| Roles.EffectiveRole | OpenHD/ohd_interface/src/EthernetCards.cpp:121-142 | An explicit static, hotspot or client role is taken verbatim; any other value gives static on an air unit and client on a ground unit |
| Roles.StaticSetup | OpenHD/ohd_interface/src/EthernetCards.cpp:198-246 | The static applier on values; specified by Roles.StaticSetupSpec |
| Roles.StaticSetupSpec | OpenHD/ohd_interface/src/EthernetCards.cpp:198-246 | The static applier records its role and a non-empty address (192.168.3.1/24 when none was set), and nothing else changes in the card. It brings the interface up, then adds a default route exactly when bring-up succeeded and a gateway is set |
| Roles.ClientSetup | OpenHD/ohd_interface/src/EthernetCards.cpp:249-278 | The client applier on values; specified by Roles.ClientSetupSpec |
| Roles.ClientSetupSpec | OpenHD/ohd_interface/src/EthernetCards.cpp:249-278 | The client applier records its role and issues exactly one DHCP-client command |
| Roles.HotspotSetup | OpenHD/ohd_interface/src/EthernetCards.cpp:145-194 | The hotspot applier on values; specified by Roles.HotspotSetupSpec and Roles.HotspotSetupConsistent |
| Roles.HotspotSetupSpec | OpenHD/ohd_interface/src/EthernetCards.cpp:145-194 | Once configured, the hotspot applier runs nothing and leaves the card alone. Otherwise it records its role and brings the interface up at the hotspot address. It starts the service exactly when bring-up succeeded, and sets the flag exactly when both succeeded |
| Roles.Dispatch | OpenHD/ohd_interface/src/EthernetCards.cpp:121-142 | Processing one card; specified by Roles.DispatchRunsOneApplier and Roles.DispatchConsistent |
| Roles.DispatchRunsOneApplier | OpenHD/ohd_interface/src/EthernetCards.cpp:121-142 | Exactly the applier the policy picks runs. Static and client leave the hotspot flag alone. Every applier that acts records its role in the card |
| Roles.StaticSetupStartsNoHotspot | OpenHD/ohd_interface/inc/EthernetCards.h:33 | The static applier completes no hotspot start |
| Roles.ClientSetupStartsNoHotspot | OpenHD/ohd_interface/inc/EthernetCards.h:34 | The client applier completes no hotspot start, whatever the oracle |
| Roles.HotspotSetupConsistent | OpenHD/ohd_interface/src/EthernetCards.cpp:150-191 | The hotspot applier keeps the flag equal to "one hotspot start has succeeded" |
| Roles.DispatchConsistent | OpenHD/ohd_interface/src/EthernetCards.cpp:121-142 | Processing a card keeps that invariant and never clears the flag |
| Roles.DispatchAll | OpenHD/ohd_interface/src/EthernetCards.cpp:58-90 | Processing the merged cards in order; specified by Roles.DispatchAllSingleHotspot |
| Roles.DispatchAllSingleHotspot | OpenHD/ohd_interface/src/EthernetCards.cpp:150-191 | However many cards ask for the hotspot role, at most one hotspot start succeeds over the whole run, and a set flag stays set |
| Ethernet.EthernetCards.ProcessCard | OpenHD/ohd_interface/src/EthernetCards.cpp:121-142 | The if-chain with early returns computes exactly the policy's dispatch, and keeps the single-hotspot invariant |
| Ethernet.EthernetCards.SetupHotspot | OpenHD/ohd_interface/src/EthernetCards.cpp:145-194 | The method computes exactly the hotspot applier's card, flag and commands, and keeps the single-hotspot invariant |
| Ethernet.EthernetCards.SetupStatic | OpenHD/ohd_interface/src/EthernetCards.cpp:198-246 | The method computes exactly the static applier's card and commands, and touches only the command runner |
| Ethernet.EthernetCards.SetupClient | OpenHD/ohd_interface/src/EthernetCards.cpp:249-278 | The method computes exactly the client applier's card and command, and touches only the command runner |
| Ethernet.EthernetCards.Configure | OpenHD/ohd_interface/src/EthernetCards.cpp:32-91 | Configure appends the loaded cards to the inventory; the applier's changes are not kept there. Stored settings that cannot be read count as none. The k-th save holds the first k+1 merged cards. The hotspot flag and command history are those of dispatching every merged card in order. The single-hotspot invariant is kept |
| Scenarios.StaticOverrideScenario | OpenHD/ohd_interface/src/EthernetCards.cpp:58-74 | A stored static entry with an address is merged into its card. The interface is brought up with that address and, with no gateway, gets no route |
| Scenarios.GroundClientsScenario | OpenHD/ohd_interface/src/EthernetCards.cpp:137-141 | On a ground unit, two cards with no role both run the DHCP client, in order |
| Scenarios.TwoHotspotsScenario | OpenHD/ohd_interface/src/EthernetCards.cpp:150-153 | Of two cards asking for the hotspot role, the second runs no command once the first succeeded |

## Modelling choices

- **Commands.** `run_command` belongs to a utility library that is not part of this model. `CommandRunner.Run` records each command and leaves its success to an oracle fixed when the object is built. The oracle sees the whole history, so a command may succeed or fail depending on what ran before it.
- **Card type.** The card type enumeration and its string conversions are in a header that is not part of this model. The type is an opaque tag, and the writer takes the type-to-string conversion as a parameter.
- **Card defaults.** A loaded card's vendor, use_for, ip and gateway are empty strings. This assumes the default values of the `EthernetCard` struct, whose header is not part of this model.
- **Manifest.** The manifest file and JSON parsing are the `Manifest` value:
  - `Unreadable` covers a missing or unparsable file, or a bad `hotspot` field. It leaves the inventory unchanged.
  - A `Malformed` descriptor stands for an entry whose conversion throws.
- **Stored settings.** The stored settings are an `Option`: `None` means that reading them threw, and counts as no entries.
- **Settings writer.** The template engine is the `render` parameter. The templated text is `SaveSettings`'s result.

## Left out

- Logging, console output and the status messages (`ohd_log`): they do not affect control flow.
- The hotspot type read from the manifest (`m_ethernet_hotspot_type`): it is stored but never used by these files.
- The unit id: it is stored (the `unitId` field) but never used.
- The file paths of the manifest, settings directory and settings template, and the file writes: I/O. A save that throws is caught and does not change what happens next. The model records what each save is given, in the ghost `saves` field.
- `read_config`, the parser of the stored settings file: it is not part of this model. The model does not prove that reading a saved file gives its records back. `Reconcile.MergeIdempotent` takes the entries read back to be `Persistence.Records` of the saved cards, one `Persistence.Record` per card in order.
- The copy semantics of the applier argument: `configure` passes a loop copy. The model returns the applier's card as a result that `Configure` discards, which leaves the inventory and the saved cards unchanged, as in the source.
- Concurrency and the object's destructor: the component is single-threaded and owns no resources.

## Behaviour worth noting

- A stored entry's `use_for`, `ip` or `gateway` replaces the card's value whenever the key is present, even when the stored value is empty (EthernetCards.cpp:69-71; `Reconcile.OverrideKeys`).
- The settings file is rewritten once per card, each time with the cards merged so far (EthernetCards.cpp:74-86; `Persistence.SnapshotsArePrefixes`).
- Each save holds the cards as merged, before the card's applier runs. The role an applier records and the default static address are never saved (EthernetCards.cpp:83-88; `Ethernet.EthernetCards.Configure`).
- When a hotspot is already configured, the hotspot applier returns before recording the hotspot role, so the card's `use_for` is unchanged (EthernetCards.cpp:150-153; `Roles.HotspotSetupSpec`).
