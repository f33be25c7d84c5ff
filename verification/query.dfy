/** How `main` turns the query tokens and the `--member` flag into member-id
    filters and free-text terms. */
module Query {
  import opened Wrappers
  import opened Text
  import opened MemberMaps

  /** The ids of the tokens whose lower-cased form is a key of the index, in
      token order. */
  function MemberIdsOf(tokens: seq<string>, index: NameIndex): seq<int>
  {
    if tokens == [] then []
    else
      var earlier := MemberIdsOf(tokens[..|tokens| - 1], index);
      var t := Lower(tokens[|tokens| - 1]);
      if t in index.ids then earlier + [index.ids[t]] else earlier
  }

  /** The lower-cased tokens that are not keys of the index, in token order. */
  function TermsOf(tokens: seq<string>, index: NameIndex): seq<string>
  {
    if tokens == [] then []
    else
      var earlier := TermsOf(tokens[..|tokens| - 1], index);
      var t := Lower(tokens[|tokens| - 1]);
      if t in index.ids then earlier else earlier + [t]
  }

  /** The classification loop of `main`. */
  method ClassifyQuery(tokens: seq<string>, index: NameIndex) returns (memberIds: seq<int>, terms: seq<string>)
    ensures memberIds == MemberIdsOf(tokens, index)
    ensures terms == TermsOf(tokens, index)
  {
    memberIds, terms := [], [];
    for i := 0 to |tokens|
      invariant memberIds == MemberIdsOf(tokens[..i], index)
      invariant terms == TermsOf(tokens[..i], index)
    {
      var ql := Lower(tokens[i]);
      if ql in index.ids {
        memberIds := memberIds + [index.ids[ql]];
      } else {
        terms := terms + [ql];
      }
      assert tokens[..i + 1][..i] == tokens[..i];
    }
    assert tokens[..|tokens|] == tokens;
  }

  /** Every token goes to exactly one of the two lists. */
  lemma {:induction false} ClassifyIsPartition(tokens: seq<string>, index: NameIndex)
    ensures |MemberIdsOf(tokens, index)| + |TermsOf(tokens, index)| == |tokens|
  {
    if tokens != [] {
      ClassifyIsPartition(tokens[..|tokens| - 1], index);
    }
  }

  /** Classifying a longer query only appends to both lists. */
  lemma {:induction false} ClassifyExtends(tokens: seq<string>, index: NameIndex, i: nat)
    requires i <= |tokens|
    ensures MemberIdsOf(tokens[..i], index) <= MemberIdsOf(tokens, index)
    ensures TermsOf(tokens[..i], index) <= TermsOf(tokens, index)
  {
    if i < |tokens| {
      var shorter := tokens[..|tokens| - 1];
      assert shorter[..i] == tokens[..i];
      ClassifyExtends(shorter, index, i);
    } else {
      assert tokens[..i] == tokens;
    }
  }

  /** Token `i` lands in exactly one list, right after the tokens of its kind
      that precede it, so both lists keep the order of the query: a member
      token contributes its id to `member_ids` and nothing to
      `remaining_terms`, any other token contributes its lower-cased self to
      `remaining_terms` and nothing to `member_ids`. */
  lemma TokenPlacement(tokens: seq<string>, index: NameIndex, i: nat)
    requires i < |tokens|
    ensures var t := Lower(tokens[i]);
      var p, q := |MemberIdsOf(tokens[..i], index)|, |TermsOf(tokens[..i], index)|;
      && (t in index.ids ==>
            && p < |MemberIdsOf(tokens, index)| && MemberIdsOf(tokens, index)[p] == index.ids[t]
            && |TermsOf(tokens[..i + 1], index)| == q)
      && (t !in index.ids ==>
            && q < |TermsOf(tokens, index)| && TermsOf(tokens, index)[q] == t
            && |MemberIdsOf(tokens[..i + 1], index)| == p)
  {
    ClassifyExtends(tokens, index, i + 1);
    assert tokens[..i + 1][..i] == tokens[..i];
  }

  /** The `--member` flag: a non-empty name whose lower-cased form is a key
      with a truthy (non-zero) id appends that id; otherwise nothing changes. */
  function WithMemberFlag(memberIds: seq<int>, flag: Option<string>, index: NameIndex): (r: seq<int>)
    ensures memberIds <= r && |r| <= |memberIds| + 1
    ensures |r| == |memberIds| + 1 <==>
      flag.Some? && flag.value != "" && Lower(flag.value) in index.ids && index.ids[Lower(flag.value)] != 0
    ensures |r| == |memberIds| + 1 ==> r[|memberIds|] == index.ids[Lower(flag.value)]
  {
    match flag
    case None => memberIds
    case Some(name) =>
      if name == "" then memberIds
      else
        var found := if Lower(name) in index.ids then Some(index.ids[Lower(name)]) else None;
        if found.Some? && found.value != 0 then memberIds + [found.value] else memberIds
  }
}
