/** The image links of one card: which of them a HEAD request accepts, and
    which lines `main` shows for them, in priority order. */
module Links {
  import opened Wrappers
  import opened Text
  import opened Records

  /** What a HEAD request (redirects followed) gives the script: any failure
      (network error, timeout), or the final status code and the value of the
      `Content-Type` header ("" when the header is absent). */
  datatype HeadResult = Unreachable | Response(status: int, contentType: string)

  /** The content types the script treats as an image file. */
  predicate ImageContentType(contentType: string)
  {
    var ctype := Lower(contentType);
    Contains(ctype, "image") || Contains(ctype, "octet-stream")
  }

  /** `verify_url`: an empty url is not requested; otherwise the url comes
      back when the request succeeds with status 200 and an image-like
      content type, and nothing comes back in every other case. */
  function VerifyUrl(url: string, head: HeadResult): (r: Option<string>)
    ensures r.Some? <==>
      url != "" && head.Response? && head.status == 200 && ImageContentType(head.contentType)
    ensures r.Some? ==> r.value == url
  {
    if url == "" then None
    else match head
      case Unreachable => None
      case Response(status, contentType) =>
        if status == 200 && ImageContentType(contentType) then Some(url) else None
  }

  /** Lower-casing twice changes nothing more than lower-casing once. */
  lemma LowerIdempotent(s: string)
    ensures Lower(Lower(s)) == Lower(s)
  {
    assert forall i :: 0 <= i < |s| ==> Lower(Lower(s))[i] == Lower(s)[i];
  }

  /** The content-type test ignores letter case: a header that differs only
      in case is accepted or rejected alike. */
  lemma VerifyUrlIgnoresCase(url: string, status: int, contentType: string)
    ensures VerifyUrl(url, Response(status, contentType)) ==
            VerifyUrl(url, Response(status, Lower(contentType)))
  {
    LowerIdempotent(contentType);
  }

  /** The six link labels of a card. */
  datatype Label = ArtTrained | Art | TransparentTrained | Transparent | ImageTrained | Image

  /** `priority_order` */
  const PriorityOrder: seq<Label> := [ArtTrained, Art, TransparentTrained, Transparent, ImageTrained, Image]

  /** A label's position in the priority order. */
  function Rank(l: Label): (r: nat)
    ensures r < |PriorityOrder| && PriorityOrder[r] == l
  {
    match l
    case ArtTrained => 0
    case Art => 1
    case TransparentTrained => 2
    case Transparent => 3
    case ImageTrained => 4
    case Image => 5
  }

  /** Each position of the priority order holds the label of that rank. */
  lemma RankAt(i: nat)
    requires i < |PriorityOrder|
    ensures Rank(PriorityOrder[i]) == i
  {
    if i == 0 {} else if i == 1 {} else if i == 2 {} else if i == 3 {} else if i == 4 {} else {}
  }

  /** `links_to_check`: the card field behind each label. */
  function LinkOf(card: Card, l: Label): string
  {
    match l
    case ArtTrained => card.artTrained
    case Art => card.art
    case TransparentTrained => card.transparentTrained
    case Transparent => card.transparent
    case ImageTrained => card.imageTrained
    case Image => card.image
  }

  /** `valid_links`: one HEAD request per non-empty link, `heads(l)` being the
      result of the request for label `l`; the labels whose link was accepted,
      each with its link. Completion order does not matter, as the result is
      keyed by label. */
  function ValidLinks(card: Card, heads: Label -> HeadResult): (r: map<Label, string>)
    ensures forall l :: l in r <==> VerifyUrl(LinkOf(card, l), heads(l)).Some?
    ensures forall l :: l in r ==> r[l] == LinkOf(card, l) && r[l] != ""
  {
    map l | l in PriorityOrder && VerifyUrl(LinkOf(card, l), heads(l)).Some? :: LinkOf(card, l)
  }

  /** One printed link line: `<label>: <url>` when verified,
      `<label> (Unverified): <url>` otherwise. */
  datatype LinkLine = LinkLine(kind: Label, url: string, verified: bool)

  /** The verified lines, in the order of `order`. */
  function VerifiedLines(valid: map<Label, string>, order: seq<Label>): seq<LinkLine>
  {
    if order == [] then []
    else
      var earlier := VerifiedLines(valid, order[..|order| - 1]);
      var l := order[|order| - 1];
      if l in valid then earlier + [LinkLine(l, valid[l], true)] else earlier
  }

  /** The first label in `order` whose link is non-empty. */
  function FirstLink(card: Card, order: seq<Label>): Option<Label>
  {
    if order == [] then None
    else if LinkOf(card, order[0]) != "" then Some(order[0])
    else FirstLink(card, order[1..])
  }

  /** The lines shown for a card: its verified links, or else the first
      non-empty link marked unverified. */
  function ShownLines(card: Card, valid: map<Label, string>): seq<LinkLine>
  {
    var verified := VerifiedLines(valid, PriorityOrder);
    if verified != [] then verified
    else match FirstLink(card, PriorityOrder)
      case None => []
      case Some(l) => [LinkLine(l, LinkOf(card, l), false)]
  }

  /** The two output loops of `main` for one card. */
  method ShowLinks(card: Card, valid: map<Label, string>) returns (lines: seq<LinkLine>)
    ensures lines == ShownLines(card, valid)
  {
    lines := [];
    var foundAny := false;
    for i := 0 to |PriorityOrder|
      invariant lines == VerifiedLines(valid, PriorityOrder[..i])
      invariant foundAny <==> lines != []
    {
      var l := PriorityOrder[i];
      if l in valid {
        lines := lines + [LinkLine(l, valid[l], true)];
        foundAny := true;
      }
      assert PriorityOrder[..i + 1][..i] == PriorityOrder[..i];
    }
    assert PriorityOrder[..|PriorityOrder|] == PriorityOrder;
    if !foundAny {
      for i := 0 to |PriorityOrder|
        invariant FirstLink(card, PriorityOrder[i..]) == FirstLink(card, PriorityOrder)
      {
        var l := PriorityOrder[i];
        if LinkOf(card, l) != "" {
          lines := [LinkLine(l, LinkOf(card, l), false)];
          return;
        }
        assert PriorityOrder[i..][1..] == PriorityOrder[i + 1..];
      }
    }
  }

  /** Every line is verified, names an accepted label of rank below `k`, and
      carries that label's accepted link. */
  predicate AcceptedBelow(lines: seq<LinkLine>, valid: map<Label, string>, k: nat)
  {
    forall i :: 0 <= i < |lines| ==>
      lines[i].verified && lines[i].kind in valid && lines[i].url == valid[lines[i].kind] && Rank(lines[i].kind) < k
  }

  /** The lines follow the priority order, each label at most once. */
  predicate InPriorityOrder(lines: seq<LinkLine>)
  {
    forall i, j :: 0 <= i < j < |lines| ==> Rank(lines[i].kind) < Rank(lines[j].kind)
  }

  /** Every accepted label of rank below `k` has a line. */
  predicate CoversBelow(lines: seq<LinkLine>, valid: map<Label, string>, k: nat)
  {
    forall l :: l in valid && Rank(l) < k ==> exists i :: 0 <= i < |lines| && lines[i].kind == l
  }

  /** One more label in the order appends its line when it was accepted. */
  lemma VerifiedLinesStep(valid: map<Label, string>, k: nat)
    requires 0 < k <= |PriorityOrder|
    ensures var l := PriorityOrder[k - 1];
      VerifiedLines(valid, PriorityOrder[..k]) ==
        if l in valid then VerifiedLines(valid, PriorityOrder[..k - 1]) + [LinkLine(l, valid[l], true)]
        else VerifiedLines(valid, PriorityOrder[..k - 1])
  {
    assert PriorityOrder[..k][..k - 1] == PriorityOrder[..k - 1];
  }

  /** The verified lines over the first `k` labels are accepted labels among
      them, in strictly increasing priority rank (so each at most once), each
      with its accepted link. */
  lemma {:induction false} VerifiedLinesSound(valid: map<Label, string>, k: nat)
    requires k <= |PriorityOrder|
    ensures AcceptedBelow(VerifiedLines(valid, PriorityOrder[..k]), valid, k)
    ensures InPriorityOrder(VerifiedLines(valid, PriorityOrder[..k]))
  {
    if k > 0 {
      VerifiedLinesSound(valid, k - 1);
      VerifiedLinesStep(valid, k);
      RankAt(k - 1);
      var l := PriorityOrder[k - 1];
      var v := VerifiedLines(valid, PriorityOrder[..k]);
      var earlier := VerifiedLines(valid, PriorityOrder[..k - 1]);
      if l in valid {
        forall i | 0 <= i < |v|
          ensures v[i] == if i < |earlier| then earlier[i] else LinkLine(l, valid[l], true)
        {
        }
      }
    }
  }

  /** Every accepted label among the first `k` has a verified line. */
  lemma {:induction false} VerifiedLinesComplete(valid: map<Label, string>, k: nat)
    requires k <= |PriorityOrder|
    ensures CoversBelow(VerifiedLines(valid, PriorityOrder[..k]), valid, k)
  {
    if k > 0 {
      VerifiedLinesComplete(valid, k - 1);
      VerifiedLinesStep(valid, k);
      RankAt(k - 1);
      var l := PriorityOrder[k - 1];
      var v := VerifiedLines(valid, PriorityOrder[..k]);
      var earlier := VerifiedLines(valid, PriorityOrder[..k - 1]);
      forall m | m in valid && Rank(m) < k
        ensures exists i :: 0 <= i < |v| && v[i].kind == m
      {
        if Rank(m) == k - 1 {
          assert v[|v| - 1].kind == m;
        } else {
          var i :| 0 <= i < |earlier| && earlier[i].kind == m;
          assert v[i].kind == m;
        }
      }
    }
  }

  /** With no accepted label there is no verified line. */
  lemma {:induction false} NothingAcceptedNoLines(valid: map<Label, string>, order: seq<Label>)
    requires valid == map[]
    ensures VerifiedLines(valid, order) == []
  {
    if order != [] {
      NothingAcceptedNoLines(valid, order[..|order| - 1]);
    }
  }

  /** The first non-empty link from position `k` on: its link is non-empty
      and every label between `k` and it has an empty link; when there is
      none, every link from `k` on is empty. */
  lemma {:induction false} FirstLinkMeaning(card: Card, k: nat)
    requires k <= |PriorityOrder|
    decreases |PriorityOrder| - k
    ensures match FirstLink(card, PriorityOrder[k..])
      case Some(l) =>
        && k <= Rank(l) && LinkOf(card, l) != ""
        && forall m :: k <= Rank(m) < Rank(l) ==> LinkOf(card, m) == ""
      case None => forall m :: k <= Rank(m) ==> LinkOf(card, m) == ""
  {
    if k < |PriorityOrder| {
      assert PriorityOrder[k..][1..] == PriorityOrder[k + 1..];
      FirstLinkMeaning(card, k + 1);
      RankAt(k);
    }
  }

  /** What `main` prints for a card's links: when any link was accepted,
      exactly the accepted ones, in priority order, marked verified; when
      none was, the highest-priority non-empty link alone, marked
      unverified, or no line at all when every link is empty. */
  lemma ShownLinesMeaning(card: Card, valid: map<Label, string>)
    ensures var lines := ShownLines(card, valid);
      && (valid != map[] ==>
            && AcceptedBelow(lines, valid, |PriorityOrder|)
            && InPriorityOrder(lines)
            && CoversBelow(lines, valid, |PriorityOrder|))
      && (valid == map[] ==>
            && |lines| <= 1
            && (|lines| == 1 <==> exists l :: LinkOf(card, l) != "")
            && (|lines| == 1 ==>
                  && !lines[0].verified && lines[0].url == LinkOf(card, lines[0].kind) && lines[0].url != ""
                  && forall m :: Rank(m) < Rank(lines[0].kind) ==> LinkOf(card, m) == ""))
  {
    VerifiedLinesSound(valid, |PriorityOrder|);
    VerifiedLinesComplete(valid, |PriorityOrder|);
    FirstLinkMeaning(card, 0);
    assert PriorityOrder[..|PriorityOrder|] == PriorityOrder;
    assert PriorityOrder[0..] == PriorityOrder;
    var v := VerifiedLines(valid, PriorityOrder[..|PriorityOrder|]);
    if valid != map[] {
      var l :| l in valid;
      assert Rank(l) < |PriorityOrder|;
      assert v != [];
    } else {
      NothingAcceptedNoLines(valid, PriorityOrder);
    }
  }
}
