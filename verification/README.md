# BanG Dream! card lookup: a verified model of its decision logic

`scripts/get_bandori_card.py` looks up BanG Dream! cards on bandori.party.
It builds a name index of the band members, splits the command-line query
into member names and keywords, searches the cards endpoint page by page,
filters every record locally, checks the card image links with HEAD
requests, and prints the verified links in a fixed priority order.

This project models that decision logic in Dafny. The network becomes input
values: the members list, the cards endpoint's answer to each request, and
the result of each HEAD request. The proofs cover the properties the script
relies on.

- `wrappers.dfy` (`Wrappers`): `Option`.
- `text.dfy` (`Text`): `str.lower()`, the substring test `a in b`,
  `split(' ')[0]` and `str()` of an integer.
- `records.dfy` (`Records`): member and card records.
- `member_maps.dfy` (`MemberMaps`): `build_member_maps`. Python dicts keep
  insertion order and the alias fallback scans keys in that order, so the
  name index is a map plus the sequence of its keys in insertion order. The
  two loops are methods proved equal to recursive specification functions,
  and the lemmas state what those functions compute.
- `query.dfy` (`Query`): how `main` splits the query tokens and applies the
  `--member` flag.
- `card_search.dfy` (`CardSearch`): `search_cards`. This covers the
  first-page parameters, the three local checks, and the pagination loop
  with its four ways to stop.
- `links.dfy` (`Links`): `verify_url`, the label → link table, and the two
  output loops that pick which links to print.
- `lookup.dfy` (`Lookup`): `main`. This covers the usage check, the
  search, the one fallback search, and the first five cards with their
  links.

In several places Python's notion of truth decides what happens, and the
model writes each case out:
- an empty `--member` value counts as no flag;
- a `--member` flag that resolves to id 0 is not appended (a query word whose key maps to id 0 is);
- an empty rarity string means no rarity filter;
- an empty member-id list is passed as `None`.

## Model

| member | source | states |
|---|---|---|
| MemberMaps.IdMapDomain | scripts/get_bandori_card.py:36 | the id map has an entry for exactly the ids that occur among the members |
| MemberMaps.IdMapKeepsLast | scripts/get_bandori_card.py:36 | when several members share an id, the entry is the last of them |
| MemberMaps.AddMemberAt | scripts/get_bandori_card.py:38-46 | one turn of the member loop: the full and Japanese names are always (over)written with the member's id; the first name is added only when absent; every other key is untouched |
| MemberMaps.MemberIdsOfIndex | scripts/get_bandori_card.py:38-46 | the key -> id pairs of the index built by the member loop are those the per-key lemmas describe |
| MemberMaps.MemberIndexValid | scripts/get_bandori_card.py:38-46 | after the member loop the key order lists every key of the dict exactly once |
| MemberMaps.MemberIndexOrder | scripts/get_bandori_card.py:38-46 | after the member loop the dict's keys are in the order of their first insertion: each member's full, Japanese and first name in loop order, repeats left out; this is the order the alias fallback scans |
| MemberMaps.MemberIndexKeys | scripts/get_bandori_card.py:38-46 | a key is in the index after the member loop iff it is the lower-cased full, Japanese or first name of some member |
| MemberMaps.MemberIndexIds | scripts/get_bandori_card.py:38-46 | every id written by the member loop is the id of some member |
| MemberMaps.LastNameWins | scripts/get_bandori_card.py:43-44 | a full or Japanese name maps to the id of the last member bearing it |
| MemberMaps.FirstNameFallback | scripts/get_bandori_card.py:41-46 | a key that is nobody's full or Japanese name but is a first name maps to the first member with that first name |
| MemberMaps.NoSupplierNoKey | scripts/get_bandori_card.py:38-46 | a key no member supplies is absent from the index |
| MemberMaps.FirstContaining | scripts/get_bandori_card.py:54-57 | the scan result is the first key, in insertion order, containing the target, or none when no key contains it |
| MemberMaps.ResolveAliasCases | scripts/get_bandori_card.py:49-57 | one alias: an exact hit copies the target key's id; otherwise the id of the first key containing the target is copied; when no key contains it the index is unchanged; the alias key is appended to the order only if new |
| MemberMaps.ResolveAliasOtherKey | scripts/get_bandori_card.py:49-57 | one alias leaves every key other than the alias as it was |
| MemberMaps.AliasesKeepOtherKeys | scripts/get_bandori_card.py:49-57 | the whole alias loop leaves every key that is no alias name as it was: present after it exactly when present before, and with the same id |
| MemberMaps.AliasesCopyIds | scripts/get_bandori_card.py:49-57 | every id in the index after the alias loop is an id that was already in the index before it |
| MemberMaps.NameIndexIdsAreMemberIds | scripts/get_bandori_card.py:34-59 | every id in the returned name index is the id of some input member |
| MemberMaps.ExactAliasHit | scripts/get_bandori_card.py:49-52 | an alias whose lower-cased target is a key ends with that key's id, unless an earlier alias overwrote the target or a later one reuses the alias name |
| MemberMaps.KasumiAlias | scripts/get_bandori_card.py:14 | "kasumi" resolves to the last member named "Kasumi Toyama", whatever other members have the first name Kasumi |
| MemberMaps.BuildMemberMaps | scripts/get_bandori_card.py:34-59 | the method returns the id map and the name index defined by the specification functions |
| MemberMaps.IndexMembers | scripts/get_bandori_card.py:38-46 | the member loop, updating the dict key by key, yields the specified index |
| MemberMaps.ResolveAliasTable | scripts/get_bandori_card.py:49-57 | the alias loop yields the specified index |
| MemberMaps.ResolveOne | scripts/get_bandori_card.py:50-57 | one turn of the alias loop, with its early-exit scan, does what `ResolveAliasCases` describes |
| MemberMaps.ScanKeys | scripts/get_bandori_card.py:54-57 | the break-on-first-match scan returns the first key position containing the target |
| Text.FirstWord | scripts/get_bandori_card.py:41 | the first name is a prefix of the full name with no space, followed by a space or the end of the name |
| Text.NatToDecimal | scripts/get_bandori_card.py:106 | `str` of a natural number is a non-empty digit string, of length one exactly for numbers below ten |
| Text.IntToDecimalInjective | scripts/get_bandori_card.py:106 | two integers print alike only when they are equal |
| Query.ClassifyQuery | scripts/get_bandori_card.py:153-158 | the classification loop yields the member ids and the terms given by the specification functions |
| Query.ClassifyIsPartition | scripts/get_bandori_card.py:153-158 | every token goes to exactly one of the two lists |
| Query.ClassifyExtends | scripts/get_bandori_card.py:153-158 | classifying a longer query only appends to both lists |
| Query.TokenPlacement | scripts/get_bandori_card.py:153-158 | a token that is a key puts its id, and a token that is not puts its lower-cased self, right after the earlier tokens of its kind, and adds nothing to the other list |
| Query.WithMemberFlag | scripts/get_bandori_card.py:160-163 | the flag appends exactly one id, the looked-up one, iff it is non-empty, its lower-cased form is a key, and the id is non-zero; otherwise the list is unchanged |
| CardSearch.FirstPageParams | scripts/get_bandori_card.py:82-88 | the first request carries page size 100, plus the first term when there are terms, or else the first member id when there are member ids |
| CardSearch.KeepMeaning | scripts/get_bandori_card.py:100-120 | the kept records are exactly the input records that pass the member, rarity and keyword checks, each as many times as it arrived, in their original order |
| CardSearch.KeepAppend | scripts/get_bandori_card.py:100-120 | filtering two record lists one after the other gives the same as filtering them joined |
| CardSearch.KeywordsMatch | scripts/get_bandori_card.py:110-117 | the term loop succeeds iff every term is a substring of the lower-cased name or of the lower-cased Japanese name |
| CardSearch.FilterPage | scripts/get_bandori_card.py:100-120 | the loop over one page appends exactly the records that pass the three checks |
| CardSearch.RequestCountStep | scripts/get_bandori_card.py:93-128 | after a request the loop goes on exactly when it returned a page with `next` set and fewer than ten records are kept, and the tenth request is the last |
| CardSearch.RequestCountBounds | scripts/get_bandori_card.py:90-93 | between one and ten requests are made |
| CardSearch.RequestCountContinues | scripts/get_bandori_card.py:122-126 | the loop continued after each request but the last, each of which returned a page with `next` set and left fewer than ten records |
| CardSearch.RequestCountStops | scripts/get_bandori_card.py:90-128 | the last request failed, had no `next`, was the tenth, or brought the kept count to ten or more |
| CardSearch.PageStep | scripts/get_bandori_card.py:98-126 | a successful page adds its kept records after the earlier ones and ends the loop when the kept count reaches ten |
| CardSearch.FailureStep | scripts/get_bandori_card.py:127-128 | a failed request adds no records and ends the loop, keeping what was found so far |
| CardSearch.RequestLog | scripts/get_bandori_card.py:123 | every request after the first is sent with no parameters |
| CardSearch.SearchCards | scripts/get_bandori_card.py:75-130 | the method sends the first-page parameters and then empty ones; it makes the specified number of requests and returns the filtered records of all pages fetched |
| CardSearch.RarityFilterIsExact | scripts/get_bandori_card.py:106 | a rarity flag written as a number keeps exactly the cards of that rarity |
| Links.VerifyUrl | scripts/get_bandori_card.py:61-73 | the url is returned iff it is non-empty, the HEAD status is 200 and the lower-cased content type contains "image" or "octet-stream"; otherwise nothing is returned |
| Links.VerifyUrlIgnoresCase | scripts/get_bandori_card.py:68-69 | content types that differ only in letter case are accepted or rejected alike |
| Links.Rank | scripts/get_bandori_card.py:213 | every label has a position in the priority order |
| Links.ValidLinks | scripts/get_bandori_card.py:198-205 | a label is among the verified links iff its link passes `verify_url`, and it carries that link, which is non-empty |
| Links.ShowLinks | scripts/get_bandori_card.py:213-226 | the two output loops print the lines that `ShownLines` specifies |
| Links.VerifiedLinesSound | scripts/get_bandori_card.py:214-218 | every printed verified line names an accepted label with its accepted link, in strictly increasing priority |
| Links.VerifiedLinesComplete | scripts/get_bandori_card.py:214-218 | every accepted label gets a verified line |
| Links.NothingAcceptedNoLines | scripts/get_bandori_card.py:220 | with no accepted link the first loop prints nothing |
| Links.FirstLinkMeaning | scripts/get_bandori_card.py:222-226 | the unverified fallback picks a non-empty link with all higher-priority links empty, and finds none only when every link is empty |
| Links.ShownLinesMeaning | scripts/get_bandori_card.py:213-226 | when any link was accepted, exactly the accepted links are printed in priority order; otherwise at most one line is printed, marked unverified: the highest-priority non-empty link, or no line when all six are empty |
| Lookup.FoundCardsPassFilters | scripts/get_bandori_card.py:166-176 | every card found passes the rarity and keyword checks; it also passes the member check unless it came from the fallback search, which runs only after the first search found nothing |
| Lookup.ShowCards | scripts/get_bandori_card.py:184 | at most the first five cards are shown, in order |
| Lookup.ShowCard | scripts/get_bandori_card.py:185-226 | a shown card carries its member record and the link lines chosen from its accepted links |
| Lookup.Run | scripts/get_bandori_card.py:139-184 | usage is printed iff the query is empty and the `--member` flag is falsy; otherwise "no cards" iff the search, with its fallback, found none, and else the count and the first five cards |

## Left out

- `get_all_members`, the paginated members request, is not modelled: its result is an input list.
- Network I/O is not modelled: `requests.get`, `requests.head`, `raise_for_status`, JSON decoding and timeouts. Each cards request is one input outcome (a failure, or the page's records and whether `next` is set). Each HEAD request is one input result (unreachable, or a status and content type).
- The thread pool that runs the HEAD requests is not modelled, because its only observable result is the label → link map, which does not depend on completion order. The model treats it as that map.
- Argument parsing is not modelled, and neither is the printed text: the star string, the title, character, band and attribute lines, the label texts and the separator. The model does capture which link lines are printed, for which labels, with which links, and whether each is marked unverified.
- `Text.Lower` changes ASCII letters only, not the full Unicode case mapping of `str.lower()`.
- A JSON `null` or a missing text field is the empty string in the model. So the model does not capture the crash of `.lower()` on a `null` member name or Japanese name.
- A card's `rarity` of `None` means that the card has no `i_rarity` field, which the star line at `scripts/get_bandori_card.py:208` shows as zero stars. A card whose `i_rarity` is JSON `null` makes that line raise `TypeError` after "Found N card(s)" has been printed; the model does not capture that crash and shows such a card like one without the field.
- Exceptions raised while one page's records are processed (a record that is not an object, say) are not modelled. A page either fails as a whole or is processed completely.
- The "hail mary" branch of the fallback is not modelled, because it does nothing.
- Where the script's own comments differ from its code, the model follows the code. There are three such points:
  - under the comment "Composite Keyword matching" (line 109) the code matches each term against the card name and the Japanese name separately, not against one composite string;
  - the comment "try searching ONLY member or ONLY keyword" (line 169) names two searches; the code runs one, which drops the member filter;
  - the comment "show unverified links" (line 221) speaks of several links; the code prints exactly one unverified link when no link verifies.
