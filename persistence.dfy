/**
 * What the settings writer hands off: one template block per card, each followed
 * by a blank line. The template engine and the file are outside the model; the
 * template is a function from a card's data map to its rendered text.
 */
module Persistence {
  import opened Inventory

  /** The data a card's block is rendered from. `typeName` is the card type's string
      conversion, which this model does not define. */
  function Record(card: EthernetCard, typeName: CardType -> string): map<string, string>
  {
    map[
      "type" := typeName(card.kind),
      "mac" := card.mac,
      "name" := card.name,
      "vendor" := card.vendor,
      "use_for" := card.useFor,
      "ip" := card.ip,
      "gateway" := card.gateway]
  }

  /** The settings entries a saved list of cards reads back as, one per card. */
  function Records(cards: seq<EthernetCard>, typeName: CardType -> string): (r: seq<map<string, string>>)
    ensures |r| == |cards|
    ensures forall i :: 0 <= i < |cards| ==> r[i] == Record(cards[i], typeName)
  {
    seq(|cards|, i requires 0 <= i < |cards| => Record(cards[i], typeName))
  }

  /** One card's block: the rendered template followed by a blank line. */
  function Block(card: EthernetCard, typeName: CardType -> string, render: map<string, string> -> string): string
  {
    render(Record(card, typeName)) + "\n\n"
  }

  /** The text of a settings file holding `cards`. */
  function Rendered(cards: seq<EthernetCard>, typeName: CardType -> string, render: map<string, string> -> string): string
  {
    if cards == [] then ""
    else Rendered(cards[..|cards| - 1], typeName, render) + Block(cards[|cards| - 1], typeName, render)
  }

  /** The file for a concatenation of lists is the concatenation of their files:
      blocks follow the cards' order and never depend on neighbouring cards. */
  lemma {:induction false} RenderedAppend(a: seq<EthernetCard>, b: seq<EthernetCard>,
                                          typeName: CardType -> string, render: map<string, string> -> string)
    ensures Rendered(a + b, typeName, render) == Rendered(a, typeName, render) + Rendered(b, typeName, render)
  {
    if b == [] {
      assert a + b == a;
    } else {
      var b' := b[..|b| - 1];
      var last := b[|b| - 1];
      assert (a + b)[..|a + b| - 1] == a + b';
      assert (a + b)[|a + b| - 1] == last;
      RenderedAppend(a, b', typeName, render);
      calc {
        Rendered(a + b, typeName, render);
        Rendered(a + b', typeName, render) + Block(last, typeName, render);
        Rendered(a, typeName, render) + Rendered(b', typeName, render) + Block(last, typeName, render);
        Rendered(a, typeName, render) + (Rendered(b', typeName, render) + Block(last, typeName, render));
        Rendered(a, typeName, render) + Rendered(b, typeName, render);
      }
    }
  }

  /** Card `i`'s block sits right after the blocks of the cards before it and right
      before those of the cards after it. */
  lemma {:induction false} RenderedBlock(cards: seq<EthernetCard>, i: nat,
                                         typeName: CardType -> string, render: map<string, string> -> string)
    requires i < |cards|
    ensures Rendered(cards, typeName, render)
         == Rendered(cards[..i], typeName, render) + Block(cards[i], typeName, render)
            + Rendered(cards[i + 1..], typeName, render)
  {
    var before, one, after := cards[..i], [cards[i]], cards[i + 1..];
    assert cards == (before + one) + after;
    RenderedAppend(before + one, after, typeName, render);
    RenderedAppend(before, one, typeName, render);
    assert one[..0] == [];
    assert Rendered(one, typeName, render) == Rendered([], typeName, render) + Block(cards[i], typeName, render);
  }

  /** The lists handed to the writer by a loop that saves after every card. */
  function Snapshots(cards: seq<EthernetCard>): seq<seq<EthernetCard>>
  {
    if cards == [] then [] else Snapshots(cards[..|cards| - 1]) + [cards]
  }

  /** After the k-th card the writer is handed exactly the first k cards: one snapshot
      per card, each one card longer than the one before. */
  lemma {:induction false} SnapshotsArePrefixes(cards: seq<EthernetCard>)
    ensures |Snapshots(cards)| == |cards|
    ensures forall k :: 0 <= k < |cards| ==> Snapshots(cards)[k] == cards[..k + 1]
  {
    if cards != [] {
      var front := cards[..|cards| - 1];
      SnapshotsArePrefixes(front);
      forall k | 0 <= k < |front|
        ensures Snapshots(cards)[k] == cards[..k + 1]
      {
        assert front[..k + 1] == cards[..k + 1];
      }
    }
  }

  /** Saving after one more card hands off one more snapshot, the whole list so far. */
  lemma SnapshotsExtend(cards: seq<EthernetCard>, card: EthernetCard)
    ensures Snapshots(cards + [card]) == Snapshots(cards) + [cards + [card]]
  {
    assert (cards + [card])[..|cards|] == cards;
  }
}
