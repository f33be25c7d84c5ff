/** The flow of `main`: the usage check, query classification, the card
    search with its one fallback, and the links shown for the first cards. */
module Lookup {
  import opened Wrappers
  import opened Records
  import opened MemberMaps
  import opened Query
  import opened CardSearch
  import opened Links

  /** At most this many of the found cards are shown (`cards[:5]`). */
  const ShownLimit := 5

  /** One shown card: the card, its member record when the id map has the
      card's member, and its link lines. */
  datatype ShownCard = ShownCard(card: Card, member: Option<Member>, lines: seq<LinkLine>)

  /** How a run ends: the usage text, "No cards found", or the number of
      cards found and the cards shown. */
  datatype Outcome = Usage | NoCards | Found(total: nat, shown: seq<ShownCard>)

  /** A `--member` value Python treats as true: given and not empty. */
  predicate Truthy(flag: Option<string>)
  {
    flag.Some? && flag.value != ""
  }

  /** `id_map.get(card.get('member'))` */
  function MemberOf(idMap: map<int, Member>, card: Card): Option<Member>
  {
    if card.member.Some? && card.member.value in idMap then Some(idMap[card.member.value]) else None
  }

  /** The member-id filter `main` passes to the first search. */
  function MemberFilter(query: seq<string>, flag: Option<string>, members: seq<Member>): seq<int>
  {
    var index := NameIndexOf(members);
    WithMemberFlag(MemberIdsOf(query, index), flag, index)
  }

  /** The keyword terms `main` passes to both searches. */
  function TermFilter(query: seq<string>, members: seq<Member>): seq<string>
  {
    TermsOf(query, NameIndexOf(members))
  }

  /** The cards `main` ends up with: the first search's, or, when that found
      nothing and there were both member ids and terms, those of a second
      search by the terms alone (`retry` being the endpoint's answers to it). */
  function CardsFound(query: seq<string>, rarity: Option<string>, flag: Option<string>, members: seq<Member>,
                      responses: nat -> PageOutcome, retry: nat -> PageOutcome): seq<Card>
  {
    var ids, terms := MemberFilter(query, flag, members), TermFilter(query, members);
    var first := SearchResult(responses, Criteria(terms, ids, rarity));
    if first == [] && ids != [] && terms != [] then SearchResult(retry, Criteria(terms, [], rarity))
    else first
  }

  /** Every card `main` ends up with passes the rarity and keyword checks;
      it also passes the member check unless the first search came back
      empty and the fallback, which drops the member ids, supplied it. */
  lemma FoundCardsPassFilters(query: seq<string>, rarity: Option<string>, flag: Option<string>, members: seq<Member>,
                              responses: nat -> PageOutcome, retry: nat -> PageOutcome, c: Card)
    requires c in CardsFound(query, rarity, flag, members, responses, retry)
    ensures RarityOk(c, rarity) && KeywordsOk(c, TermFilter(query, members))
    ensures var ids := MemberFilter(query, flag, members);
      SearchResult(responses, Criteria(TermFilter(query, members), ids, rarity)) != [] ==> MemberOk(c, ids)
  {
    var ids, terms := MemberFilter(query, flag, members), TermFilter(query, members);
    var first := Criteria(terms, ids, rarity);
    var second := Criteria(terms, [], rarity);
    KeepMeaning(Fetched(responses, RequestCount(responses, first, 0, true)), first);
    KeepMeaning(Fetched(retry, RequestCount(retry, second, 0, true)), second);
  }

  /** A card shown with its member and the lines chosen from its accepted
      links, `heads` being the HEAD results for that card. */
  function Show(idMap: map<int, Member>, card: Card, heads: Label -> HeadResult): ShownCard
  {
    ShownCard(card, MemberOf(idMap, card), ShownLines(card, ValidLinks(card, heads)))
  }

  /** `main`. `members` is what `get_all_members` collected, `responses` and
      `retry` the cards endpoint's answers to the first and the fallback
      search, and `heads(i)` the HEAD results for the `i`-th shown card. */
  method Run(query: seq<string>, rarity: Option<string>, flag: Option<string>, members: seq<Member>,
             responses: nat -> PageOutcome, retry: nat -> PageOutcome, heads: nat -> Label -> HeadResult)
    returns (outcome: Outcome)
    ensures outcome.Usage? <==> query == [] && !Truthy(flag)
    ensures !outcome.Usage? ==>
      var found := CardsFound(query, rarity, flag, members, responses, retry);
      && (outcome.NoCards? <==> found == [])
      && (outcome.Found? ==>
            && outcome.total == |found|
            && |outcome.shown| == (if |found| < ShownLimit then |found| else ShownLimit)
            && forall i :: 0 <= i < |outcome.shown| ==> outcome.shown[i] == Show(IdMap(members), found[i], heads(i)))
  {
    if query == [] && !Truthy(flag) {
      return Usage;
    }
    var idMap, index := BuildMemberMaps(members);
    var memberIds, terms := ClassifyQuery(query, index);
    memberIds := WithMemberFlag(memberIds, flag, index);
    var cards, sent := SearchCards(terms, memberIds, rarity, responses);
    if cards == [] && memberIds != [] && terms != [] {
      cards, sent := SearchCards(terms, [], rarity, retry);
    }
    assert cards == CardsFound(query, rarity, flag, members, responses, retry);
    if cards == [] {
      return NoCards;
    }
    var shown := ShowCards(idMap, cards, heads);
    outcome := Found(|cards|, shown);
  }

  /** The loop over `cards[:5]`: each card with its member and link lines. */
  method ShowCards(idMap: map<int, Member>, cards: seq<Card>, heads: nat -> Label -> HeadResult)
    returns (shown: seq<ShownCard>)
    ensures |shown| == if |cards| < ShownLimit then |cards| else ShownLimit
    ensures forall i :: 0 <= i < |shown| ==> shown[i] == Show(idMap, cards[i], heads(i))
  {
    var count := if |cards| < ShownLimit then |cards| else ShownLimit;
    shown := [];
    for i := 0 to count
      invariant |shown| == i
      invariant forall j :: 0 <= j < i ==> shown[j] == Show(idMap, cards[j], heads(j))
    {
      var item := ShowCard(idMap, cards[i], heads(i));
      shown := shown + [item];
    }
  }

  /** One turn of the display loop: the card's member, its HEAD checks, and
      the output loops over its links. */
  method ShowCard(idMap: map<int, Member>, card: Card, heads: Label -> HeadResult) returns (item: ShownCard)
    ensures item == Show(idMap, card, heads)
  {
    var valid := ValidLinks(card, heads);
    var lines := ShowLinks(card, valid);
    item := ShownCard(card, MemberOf(idMap, card), lines);
  }
}
