/** The record-building part of `fetch_sms_from_api` (otp_bot.py, lines 138-199).
    The HTTP requests and the HTML parsing are not modelled: the scraper's output is
    the sequence of message cards it found, each with the group id and the phone
    number it was listed under, in the order of the three nested loops. */
module Fetch {
  import opened Wrappers
  import opened Text
  import opened Classifier

  /** One `div.card-body`: where it was listed and the text of its `p.mb-0`
      paragraph (`None` when the card has no such paragraph). */
  datatype RawCard = RawCard(groupId: string, phone: string, paragraph: Option<string>)

  /** What the requests produced: an exception somewhere (caught at line 196), or
      the cards of every group and number in order. */
  datatype Scrape = ScrapeFailed | Scraped(cards: seq<RawCard>)

  /** The record of a card with a paragraph; the text is stripped first (line 172). */
  function CardRecord(c: RawCard, hash: string -> int): Option<Message>
    requires c.paragraph.Some?
  {
    Classify(c.groupId, c.phone, Strip(c.paragraph.value), hash)
  }

  /** The card raises `IndexError` in the country lookup. */
  predicate Raises(c: RawCard) {
    c.paragraph.Some? && c.groupId != [] && AllSpace(c.groupId)
  }

  /** The cards that reach the classification (`if not p: continue`). */
  function WithText(cards: seq<RawCard>): (r: seq<RawCard>)
    ensures forall k :: 0 <= k < |r| ==> r[k].paragraph.Some?
  {
    if cards == [] then []
    else
      var rest := WithText(cards[..|cards| - 1]);
      if cards[|cards| - 1].paragraph.Some? then rest + [cards[|cards| - 1]] else rest
  }

  /** `all_messages` after the loops over `cards`, or `None` once a card raised. */
  function ClassifyAll(cards: seq<RawCard>, hash: string -> int): Option<seq<Message>>
  {
    if cards == [] then Some([])
    else
      match ClassifyAll(cards[..|cards| - 1], hash)
      case None => None
      case Some(ms) =>
        var c := cards[|cards| - 1];
        if c.paragraph.None? then Some(ms)
        else
          match CardRecord(c, hash)
          case None => None
          case Some(m) => Some(ms + [m])
  }

  /** The value `fetch_sms_from_api` returns: `[]` on any exception. */
  function Fetched(scrape: Scrape, hash: string -> int): seq<Message> {
    match scrape
    case ScrapeFailed => []
    case Scraped(cards) =>
      match ClassifyAll(cards, hash)
      case None => []
      case Some(ms) => ms
  }

  /** Once a prefix raised, the whole walk has raised. */
  lemma {:induction false} NoneExtends(cards: seq<RawCard>, k: nat, hash: string -> int)
    requires k <= |cards| && ClassifyAll(cards[..k], hash).None?
    ensures ClassifyAll(cards, hash).None?
    decreases |cards| - k
  {
    if k < |cards| {
      assert cards[..k + 1][..k] == cards[..k];
      NoneExtends(cards, k + 1, hash);
    } else {
      assert cards[..k] == cards;
    }
  }

  /** One more card: skipped without a paragraph, otherwise its record is appended
      or the walk raises. */
  lemma ClassifyAllStep(cards: seq<RawCard>, i: nat, hash: string -> int, all: seq<Message>)
    requires i < |cards| && ClassifyAll(cards[..i], hash) == Some(all)
    ensures cards[i].paragraph.None? ==> ClassifyAll(cards[..i + 1], hash) == Some(all)
    ensures cards[i].paragraph.Some? && CardRecord(cards[i], hash).None? ==>
      ClassifyAll(cards[..i + 1], hash).None?
    ensures cards[i].paragraph.Some? && CardRecord(cards[i], hash).Some? ==>
      ClassifyAll(cards[..i + 1], hash) == Some(all + [CardRecord(cards[i], hash).value])
  {
    assert cards[..i + 1][..i] == cards[..i];
  }

  /** The card loop, appending to `all_messages`; a raising card ends the walk with
      an empty result, discarding the records already built. */
  method FetchSms(scrape: Scrape, hash: string -> int) returns (msgs: seq<Message>)
    ensures msgs == Fetched(scrape, hash)
  {
    if scrape.ScrapeFailed? {
      return [];
    }
    var cards := scrape.cards;
    var all: seq<Message> := [];
    var i := 0;
    while i < |cards|
      invariant 0 <= i <= |cards|
      invariant ClassifyAll(cards[..i], hash) == Some(all)
    {
      var c := cards[i];
      ClassifyAllStep(cards, i, hash, all);
      if c.paragraph.Some? {
        var text := Strip(c.paragraph.value);
        var r := ClassifyCard(c.groupId, c.phone, text, hash);
        if r.None? {
          NoneExtends(cards, i + 1, hash);
          return [];
        }
        all := all + [r.value];
      }
      i := i + 1;
    }
    assert cards[..|cards|] == cards;
    msgs := all;
  }

  /** All or nothing: a single raising card empties the whole result. */
  lemma {:induction false} RaisingCardEmptiesFetch(cards: seq<RawCard>, i: nat, hash: string -> int)
    requires i < |cards| && Raises(cards[i])
    ensures Fetched(Scraped(cards), hash) == []
  {
    var prefix := cards[..i + 1];
    assert prefix[..i] == cards[..i];
    assert prefix[i] == cards[i];
    NoneExtends(cards, i + 1, hash);
  }

  /** Without a raising card, the result holds one record per card with a
      paragraph, in the scraper's order. */
  lemma {:induction false} ClassifyAllRecords(cards: seq<RawCard>, hash: string -> int)
    requires forall i :: 0 <= i < |cards| ==> !Raises(cards[i])
    ensures ClassifyAll(cards, hash).Some?
    ensures var ms := ClassifyAll(cards, hash).value;
            |ms| == |WithText(cards)| &&
            forall k :: 0 <= k < |ms| ==> CardRecord(WithText(cards)[k], hash) == Some(ms[k])
  {
    if cards != [] {
      var prefix := cards[..|cards| - 1];
      forall i | 0 <= i < |prefix| ensures !Raises(prefix[i]) {
        assert prefix[i] == cards[i];
      }
      ClassifyAllRecords(prefix, hash);
      var c := cards[|cards| - 1];
      assert !Raises(c);
      var before := ClassifyAll(prefix, hash).value;
      var texts := WithText(prefix);
      if c.paragraph.Some? {
        var m := CardRecord(c, hash);
        assert m.Some?;
        assert ClassifyAll(cards, hash) == Some(before + [m.value]);
        assert WithText(cards) == texts + [c];
        forall k | 0 <= k < |before| + 1
          ensures CardRecord(WithText(cards)[k], hash) == Some((before + [m.value])[k])
        {
          if k < |before| {
            assert WithText(cards)[k] == texts[k];
          }
        }
      } else {
        assert ClassifyAll(cards, hash) == Some(before);
        assert WithText(cards) == texts;
      }
    }
  }

  /** A raising card is the only way the walk fails. */
  lemma {:induction false} ClassifyAllFailsOnlyOnRaise(cards: seq<RawCard>, hash: string -> int)
    requires ClassifyAll(cards, hash).None?
    ensures exists i :: 0 <= i < |cards| && Raises(cards[i])
  {
    var prefix := cards[..|cards| - 1];
    if ClassifyAll(prefix, hash).None? {
      ClassifyAllFailsOnlyOnRaise(prefix, hash);
      var i :| 0 <= i < |prefix| && Raises(prefix[i]);
      assert cards[i] == prefix[i];
    } else {
      assert Raises(cards[|cards| - 1]);
    }
  }
}
