/** `build_member_maps`: the id -> member map and the lower-cased name -> id
    index built from the members list, including the static alias table. */
module MemberMaps {
  import opened Wrappers
  import opened Text
  import opened Records

  /** The last member of `members` that has id `id` sits at index `j`. */
  ghost predicate IsLastWithId(members: seq<Member>, j: int, id: int)
  {
    && 0 <= j < |members|
    && members[j].id == id
    && forall j' :: j < j' < |members| ==> members[j'].id != id
  }

  /** `{m['id']: m for m in members}` */
  function IdMap(members: seq<Member>): map<int, Member>
  {
    if members == [] then map[]
    else
      var last := members[|members| - 1];
      IdMap(members[..|members| - 1])[last.id := last]
  }

  /** The id map has an entry for exactly the ids that occur among the members. */
  lemma {:induction false} IdMapDomain(members: seq<Member>, id: int)
    ensures id in IdMap(members) <==> exists j :: 0 <= j < |members| && members[j].id == id
  {
    if members != [] {
      var n := |members|;
      var prefix := members[..n - 1];
      IdMapDomain(prefix, id);
      if id in IdMap(prefix) {
        var j :| 0 <= j < n - 1 && prefix[j].id == id;
        assert members[j] == prefix[j];
      } else if members[n - 1].id != id {
        forall j | 0 <= j < n
          ensures members[j].id != id
        {
          if j < n - 1 {
            assert members[j] == prefix[j];
          }
        }
      }
    }
  }

  /** When several members share an id, the id map holds the last of them. */
  lemma {:induction false} IdMapKeepsLast(members: seq<Member>, id: int)
    requires id in IdMap(members)
    ensures exists j :: IsLastWithId(members, j, id) && IdMap(members)[id] == members[j]
  {
    var n := |members|;
    var prefix := members[..n - 1];
    if members[n - 1].id == id {
      assert IsLastWithId(members, n - 1, id);
    } else {
      IdMapKeepsLast(prefix, id);
      var j :| IsLastWithId(prefix, j, id) && IdMap(prefix)[id] == prefix[j];
      assert IsLastWithId(members, j, id);
    }
  }

  /** The name -> id dict. A Python dict remembers the order in which keys
      were first inserted, and the alias fallback depends on that order, so
      the index keeps its keys in insertion order beside the map. */
  datatype NameIndex = NameIndex(keys: seq<string>, ids: map<string, int>)
  {
    /** The listed keys are exactly the keys of the map, each listed once. */
    ghost predicate Valid()
    {
      && (forall k :: k in ids <==> k in keys)
      && (forall i, j :: 0 <= i < j < |keys| ==> keys[i] != keys[j])
    }
  }

  const EmptyIndex := NameIndex([], map[])

  /** `name_map[key] = id`: an existing key keeps its place in the order and
      takes the new id, a new key goes last. */
  function Put(index: NameIndex, key: string, id: int): NameIndex
  {
    NameIndex(if key in index.ids then index.keys else index.keys + [key], index.ids[key := id])
  }

  /** Assignment keeps the order listing exactly the keys, each once. */
  lemma PutValid(index: NameIndex, key: string, id: int)
    requires index.Valid()
    ensures Put(index, key, id).Valid()
  {
  }

  function FullNameKey(m: Member): string
  {
    Lower(m.name)
  }

  function JapaneseNameKey(m: Member): string
  {
    Lower(m.japaneseName)
  }

  function FirstNameKey(m: Member): string
  {
    FirstWord(Lower(m.name))
  }

  /** `key` is the lower-cased full or Japanese name of `m`: the two keys
      the first loop writes unconditionally. */
  predicate NamedBy(m: Member, key: string)
  {
    FullNameKey(m) == key || JapaneseNameKey(m) == key
  }

  /** One turn of the first loop of `build_member_maps`. */
  function AddMember(index: NameIndex, m: Member): NameIndex
  {
    var written := Put(Put(index, FullNameKey(m), m.id), JapaneseNameKey(m), m.id);
    if FirstNameKey(m) in written.ids then written else Put(written, FirstNameKey(m), m.id)
  }

  /** The index after the first loop, over all of `members`. */
  function MemberIndex(members: seq<Member>): NameIndex
  {
    if members == [] then EmptyIndex
    else AddMember(MemberIndex(members[..|members| - 1]), members[|members| - 1])
  }

  /** The first loop keeps the order listing exactly the keys, each once. */
  lemma {:induction false} MemberIndexValid(members: seq<Member>)
    ensures MemberIndex(members).Valid()
  {
    if members != [] {
      var m := members[|members| - 1];
      var before := MemberIndex(members[..|members| - 1]);
      MemberIndexValid(members[..|members| - 1]);
      PutValid(before, FullNameKey(m), m.id);
      var w1 := Put(before, FullNameKey(m), m.id);
      PutValid(w1, JapaneseNameKey(m), m.id);
      var w2 := Put(w1, JapaneseNameKey(m), m.id);
      PutValid(w2, FirstNameKey(m), m.id);
    }
  }

  /** The keys the first loop writes, member by member in loop order: the
      full name, the Japanese name, then the first name. */
  function SuppliedKeys(members: seq<Member>): seq<string>
  {
    if members == [] then []
    else
      var m := members[|members| - 1];
      SuppliedKeys(members[..|members| - 1]) + [FullNameKey(m), JapaneseNameKey(m), FirstNameKey(m)]
  }

  /** `s` with every repeat left out: the first copy of each string, in order. */
  function FirstOccurrences(s: seq<string>): seq<string>
  {
    if s == [] then []
    else
      var d := FirstOccurrences(s[..|s| - 1]);
      if s[|s| - 1] in d then d else d + [s[|s| - 1]]
  }

  lemma FirstOccurrencesStep(s: seq<string>, x: string)
    ensures FirstOccurrences(s + [x]) == if x in FirstOccurrences(s) then FirstOccurrences(s) else FirstOccurrences(s) + [x]
  {
    assert (s + [x])[..|s|] == s;
  }

  /** Assignment to a key lists it last when it is new, and otherwise keeps the order. */
  lemma PutKeys(index: NameIndex, key: string, id: int)
    requires index.Valid()
    ensures Put(index, key, id).keys == if key in index.keys then index.keys else index.keys + [key]
  {
  }

  /** The first loop lists the keys in the order in which they were first
      written, which is the order the alias fallback scans. */
  lemma {:induction false} MemberIndexOrder(members: seq<Member>)
    ensures MemberIndex(members).keys == FirstOccurrences(SuppliedKeys(members))
  {
    if members != [] {
      var prefix, m := members[..|members| - 1], members[|members| - 1];
      MemberIndexOrder(prefix);
      MemberIndexValid(prefix);
      var before := MemberIndex(prefix);
      var s := SuppliedKeys(prefix);
      var f, j, n := FullNameKey(m), JapaneseNameKey(m), FirstNameKey(m);
      assert SuppliedKeys(members) == ((s + [f]) + [j]) + [n];
      FirstOccurrencesStep(s, f);
      FirstOccurrencesStep(s + [f], j);
      FirstOccurrencesStep((s + [f]) + [j], n);
      PutValid(before, f, m.id);
      var w1 := Put(before, f, m.id);
      PutKeys(before, f, m.id);
      PutValid(w1, j, m.id);
      var w2 := Put(w1, j, m.id);
      PutKeys(w1, j, m.id);
      PutKeys(w2, n, m.id);
      assert MemberIndex(members) == AddMember(before, m);
    }
  }

  /** One turn of the first loop seen on the dict's key -> id pairs alone,
      leaving the key order aside. */
  function AddIds(ids: map<string, int>, m: Member): map<string, int>
  {
    var written := ids[FullNameKey(m) := m.id][JapaneseNameKey(m) := m.id];
    if FirstNameKey(m) in written then written else written[FirstNameKey(m) := m.id]
  }

  /** The key -> id pairs after the first loop. This is a proof device only:
      it restates `MemberIndex` without the key order (`MemberIdsOfIndex`
      proves the two agree), so that the lemmas about the first loop stay
      cheap; it models nothing of its own. */
  function MemberIds(members: seq<Member>): map<string, int>
  {
    if members == [] then map[]
    else AddIds(MemberIds(members[..|members| - 1]), members[|members| - 1])
  }

  /** The key -> id pairs of the index built by the first loop. */
  lemma {:induction false} MemberIdsOfIndex(members: seq<Member>)
    ensures MemberIndex(members).ids == MemberIds(members)
  {
    if members != [] {
      MemberIdsOfIndex(members[..|members| - 1]);
    }
  }

  /** What one turn of the first loop does to a single key. */
  lemma AddMemberAt(ids: map<string, int>, m: Member, key: string)
    ensures key in AddIds(ids, m) <==> key in ids || NamedBy(m, key) || FirstNameKey(m) == key
    ensures NamedBy(m, key) ==> AddIds(ids, m)[key] == m.id
    ensures !NamedBy(m, key) && key in ids ==> AddIds(ids, m)[key] == ids[key]
    ensures !NamedBy(m, key) && key !in ids && FirstNameKey(m) == key ==> AddIds(ids, m)[key] == m.id
  {
  }

  /** `key` is one of the three keys the first loop may write for `m`. */
  predicate Supplies(m: Member, key: string)
  {
    NamedBy(m, key) || FirstNameKey(m) == key
  }

  /** The keys written by the first loop are exactly the full, Japanese and
      first names of the members. */
  lemma {:induction false} MemberIndexKeys(members: seq<Member>, key: string)
    ensures key in MemberIds(members) <==> exists j :: 0 <= j < |members| && Supplies(members[j], key)
  {
    if members != [] {
      var n := |members|;
      var prefix, m := members[..n - 1], members[n - 1];
      var before := MemberIds(prefix);
      MemberIndexKeys(prefix, key);
      AddMemberAt(before, m, key);
      if key in before {
        var j :| 0 <= j < n - 1 && Supplies(prefix[j], key);
        assert members[j] == prefix[j];
      } else if Supplies(m, key) {
        assert Supplies(members[n - 1], key);
      } else {
        forall j | 0 <= j < n
          ensures !Supplies(members[j], key)
        {
          if j < n - 1 {
            assert members[j] == prefix[j];
          }
        }
      }
    }
  }

  /** Every id written by the first loop is the id of a member. */
  lemma {:induction false} MemberIndexIds(members: seq<Member>, key: string)
    requires key in MemberIds(members)
    ensures exists j :: 0 <= j < |members| && members[j].id == MemberIds(members)[key]
  {
    var n := |members|;
    var prefix, m := members[..n - 1], members[n - 1];
    var before := MemberIds(prefix);
    AddMemberAt(before, m, key);
    if !NamedBy(m, key) && key in before {
      MemberIndexIds(prefix, key);
      var j :| 0 <= j < n - 1 && prefix[j].id == before[key];
      assert members[j] == prefix[j];
    } else {
      assert members[n - 1].id == MemberIds(members)[key];
    }
  }

  /** A full or Japanese name maps to the id of the LAST member bearing it:
      these keys are always written, so later members overwrite earlier ones,
      and a first name never overwrites them. */
  lemma {:induction false} LastNameWins(members: seq<Member>, j: nat, key: string)
    requires j < |members| && NamedBy(members[j], key)
    requires forall j' :: j < j' < |members| ==> !NamedBy(members[j'], key)
    ensures key in MemberIds(members) && MemberIds(members)[key] == members[j].id
  {
    var n := |members|;
    var prefix, m := members[..n - 1], members[n - 1];
    var before := MemberIds(prefix);
    if j < n - 1 {
      forall j' | j < j' < |prefix|
        ensures !NamedBy(prefix[j'], key)
      {
        assert prefix[j'] == members[j'];
      }
      LastNameWins(prefix, j, key);
      assert !NamedBy(m, key);
      AddMemberAt(before, m, key);
    } else {
      AddMemberAt(before, m, key);
    }
  }

  /** A key that is nobody's full or Japanese name but is somebody's first
      name maps to the id of the FIRST member with that first name: a first
      name is only inserted when the key is absent. */
  lemma {:induction false} FirstNameFallback(members: seq<Member>, j: nat, key: string)
    requires forall i :: 0 <= i < |members| ==> !NamedBy(members[i], key)
    requires j < |members| && FirstNameKey(members[j]) == key
    requires forall i :: 0 <= i < j ==> FirstNameKey(members[i]) != key
    ensures key in MemberIds(members) && MemberIds(members)[key] == members[j].id
  {
    var n := |members|;
    var prefix, m := members[..n - 1], members[n - 1];
    var before := MemberIds(prefix);
    if j < n - 1 {
      forall i | 0 <= i < n - 1
        ensures !NamedBy(prefix[i], key) && (i < j ==> FirstNameKey(prefix[i]) != key)
      {
        assert prefix[i] == members[i];
      }
      FirstNameFallback(prefix, j, key);
      AddMemberAt(before, m, key);
    } else {
      forall i | 0 <= i < n - 1
        ensures !Supplies(prefix[i], key)
      {
        assert prefix[i] == members[i];
      }
      NoSupplierNoKey(prefix, key);
      AddMemberAt(before, m, key);
    }
  }

  /** A key no member supplies is not written by the first loop. */
  lemma NoSupplierNoKey(members: seq<Member>, key: string)
    requires forall i :: 0 <= i < |members| ==> !Supplies(members[i], key)
    ensures key !in MemberIds(members)
  {
    MemberIndexKeys(members, key);
  }

  /** The static alias table, `NAME_ALIASES`, in its insertion order. */
  const NameAliases: seq<(string, string)> := [
    ("rana", "Raana"),
    ("rana kaname", "Raana Kaname"),
    ("raana", "Raana"),
    ("kasumi", "Kasumi Toyama"),
    ("anon", "Anon Chihaya")
  ]

  /** The key at index `i` is the first key, in insertion order, that
      contains `target`. */
  ghost predicate IsFirstContaining(keys: seq<string>, target: string, i: int)
  {
    && 0 <= i < |keys|
    && Contains(keys[i], target)
    && forall i' :: 0 <= i' < i ==> !Contains(keys[i'], target)
  }

  /** The scan `for name, mid in name_map.items(): if target_lower in name: ... break`. */
  function FirstContaining(keys: seq<string>, target: string): (r: Option<nat>)
    ensures r.Some? ==> IsFirstContaining(keys, target, r.value)
    ensures r.None? ==> forall i :: 0 <= i < |keys| ==> !Contains(keys[i], target)
  {
    if keys == [] then None
    else if Contains(keys[0], target) then Some(0)
    else match FirstContaining(keys[1..], target)
      case None => None
      case Some(i) => Some(i + 1)
  }

  /** One turn of the alias loop. */
  function ResolveAlias(index: NameIndex, alias: string, target: string): (r: NameIndex)
    requires index.Valid()
    ensures r.Valid()
  {
    var t := Lower(target);
    PutValid(index, Lower(alias), if t in index.ids then index.ids[t] else 0);
    if t in index.ids then Put(index, Lower(alias), index.ids[t])
    else match FirstContaining(index.keys, t)
      case None => index
      case Some(i) =>
        PutValid(index, Lower(alias), index.ids[index.keys[i]]);
        Put(index, Lower(alias), index.ids[index.keys[i]])
  }

  /** What one alias does: an exact hit on the lower-cased target copies that
      key's id; otherwise the alias takes the id of the first key, in
      insertion order, that contains the target; when no key contains it the
      alias is not added. Only the alias key may be added or changed. */
  lemma ResolveAliasCases(index: NameIndex, alias: string, target: string)
    requires index.Valid()
    ensures var r := ResolveAlias(index, alias, target);
      && (Lower(target) in index.ids ==>
            r.ids == index.ids[Lower(alias) := index.ids[Lower(target)]])
      && (Lower(target) !in index.ids ==>
            forall i :: IsFirstContaining(index.keys, Lower(target), i) ==>
              r.ids == index.ids[Lower(alias) := index.ids[index.keys[i]]])
      && ((Lower(target) !in index.ids && forall i :: 0 <= i < |index.keys| ==> !Contains(index.keys[i], Lower(target))) ==>
            r == index)
      && (r.keys == index.keys || r.keys == index.keys + [Lower(alias)])
  {
  }

  /** The alias loop over `aliases`, in order; each alias sees the index left
      by the ones before it. */
  function ResolveAliases(index: NameIndex, aliases: seq<(string, string)>): (r: NameIndex)
    requires index.Valid()
    ensures r.Valid()
    decreases |aliases|
  {
    if aliases == [] then index
    else
      var last := aliases[|aliases| - 1];
      ResolveAlias(ResolveAliases(index, aliases[..|aliases| - 1]), last.0, last.1)
  }

  /** The `name_map` that `build_member_maps` returns. */
  function NameIndexOf(members: seq<Member>): (r: NameIndex)
    ensures r.Valid()
  {
    MemberIndexValid(members);
    ResolveAliases(MemberIndex(members), NameAliases)
  }

  /** One alias leaves every other key as it was. */
  lemma ResolveAliasOtherKey(index: NameIndex, alias: string, target: string, key: string)
    requires index.Valid() && key != Lower(alias)
    ensures key in ResolveAlias(index, alias, target).ids <==> key in index.ids
    ensures key in index.ids ==> ResolveAlias(index, alias, target).ids[key] == index.ids[key]
  {
  }

  /** The alias loop leaves every key that is not an alias name as it was:
      present exactly when it was present before, with the same id. */
  lemma {:induction false} AliasesKeepOtherKeys(index: NameIndex, aliases: seq<(string, string)>, key: string)
    requires index.Valid()
    requires forall a :: 0 <= a < |aliases| ==> Lower(aliases[a].0) != key
    ensures key in ResolveAliases(index, aliases).ids <==> key in index.ids
    ensures key in index.ids ==> ResolveAliases(index, aliases).ids[key] == index.ids[key]
  {
    if aliases != [] {
      var n := |aliases|;
      var prefix := aliases[..n - 1];
      assert forall a :: 0 <= a < n - 1 ==> prefix[a] == aliases[a];
      AliasesKeepOtherKeys(index, prefix, key);
      ResolveAliasOtherKey(ResolveAliases(index, prefix), aliases[n - 1].0, aliases[n - 1].1, key);
    }
  }

  /** Aliases only copy ids that are already in the index. */
  lemma {:induction false} AliasesCopyIds(index: NameIndex, aliases: seq<(string, string)>, key: string)
    requires index.Valid() && key in ResolveAliases(index, aliases).ids
    ensures exists source :: source in index.ids && ResolveAliases(index, aliases).ids[key] == index.ids[source]
  {
    if aliases != [] {
      var n := |aliases|;
      var prefix := aliases[..n - 1];
      var before := ResolveAliases(index, prefix);
      var after := ResolveAliases(index, aliases);
      assert after == ResolveAlias(before, aliases[n - 1].0, aliases[n - 1].1);
      var source :| source in before.ids && after.ids[key] == before.ids[source];
      AliasesCopyIds(index, prefix, source);
    }
  }

  /** Every id in the finished name index is the id of some input member. */
  lemma NameIndexIdsAreMemberIds(members: seq<Member>, key: string)
    requires key in NameIndexOf(members).ids
    ensures exists j :: 0 <= j < |members| && members[j].id == NameIndexOf(members).ids[key]
  {
    var base := MemberIndex(members);
    MemberIndexValid(members);
    MemberIdsOfIndex(members);
    AliasesCopyIds(base, NameAliases, key);
    var source :| source in base.ids && base.ids[source] == NameIndexOf(members).ids[key];
    MemberIndexIds(members, source);
  }

  /** An alias whose lower-cased target is a key of the index ends up with
      that key's id, provided no earlier alias overwrote the target key and
      no later alias has the same name. */
  lemma {:induction false} ExactAliasHit(index: NameIndex, aliases: seq<(string, string)>, a: nat)
    requires index.Valid()
    requires a < |aliases| && Lower(aliases[a].1) in index.ids
    requires forall b :: 0 <= b < a ==> Lower(aliases[b].0) != Lower(aliases[a].1)
    requires forall b :: a < b < |aliases| ==> Lower(aliases[b].0) != Lower(aliases[a].0)
    ensures Lower(aliases[a].0) in ResolveAliases(index, aliases).ids
    ensures ResolveAliases(index, aliases).ids[Lower(aliases[a].0)] == index.ids[Lower(aliases[a].1)]
  {
    var n := |aliases|;
    var prefix, last := aliases[..n - 1], aliases[n - 1];
    var before := ResolveAliases(index, prefix);
    assert ResolveAliases(index, aliases) == ResolveAlias(before, last.0, last.1);
    var aliasKey, targetKey := Lower(aliases[a].0), Lower(aliases[a].1);
    if a < n - 1 {
      assert prefix[a] == aliases[a];
      forall b | 0 <= b < n - 1
        ensures b < a ==> Lower(prefix[b].0) != targetKey
        ensures a < b ==> Lower(prefix[b].0) != aliasKey
      {
        assert prefix[b] == aliases[b];
      }
      ExactAliasHit(index, prefix, a);
      assert aliasKey in before.ids && before.ids[aliasKey] == index.ids[targetKey];
      ResolveAliasOtherKey(before, last.0, last.1, aliasKey);
    } else {
      forall b | 0 <= b < n - 1
        ensures Lower(prefix[b].0) != targetKey
      {
        assert prefix[b] == aliases[b];
      }
      AliasesKeepOtherKeys(index, prefix, targetKey);
      assert targetKey in before.ids && before.ids[targetKey] == index.ids[targetKey];
      ResolveAliasCases(before, last.0, last.1);
    }
  }


  /** The "kasumi" entry of the alias table after `lower()`, and the names
      of the other aliases, none of which is "kasumi" or "kasumi toyama". */
  lemma KasumiEntry()
    ensures Lower(NameAliases[3].0) == "kasumi" && Lower(NameAliases[3].1) == "kasumi toyama"
    ensures forall b :: 0 <= b < 3 ==> Lower(NameAliases[b].0) != "kasumi toyama"
    ensures forall b :: 3 < b < |NameAliases| ==> Lower(NameAliases[b].0) != "kasumi"
  {
    assert Lower("Kasumi Toyama") == "kasumi toyama";
    assert Lower("kasumi") == "kasumi";
    assert |Lower("rana")| == 4 && |Lower("rana kaname")| == 11 && |Lower("raana")| == 5;
    assert |Lower("anon")| == 4;
  }

  /** The query "kasumi" resolves to the last member whose full or Japanese
      name is "Kasumi Toyama", whoever else has the first name Kasumi. */
  lemma KasumiAlias(members: seq<Member>, j: nat)
    requires j < |members| && NamedBy(members[j], "kasumi toyama")
    requires forall j' :: j < j' < |members| ==> !NamedBy(members[j'], "kasumi toyama")
    ensures "kasumi" in NameIndexOf(members).ids
    ensures NameIndexOf(members).ids["kasumi"] == members[j].id
  {
    LastNameWins(members, j, "kasumi toyama");
    MemberIdsOfIndex(members);
    KasumiEntry();
    MemberIndexValid(members);
    ExactAliasHit(MemberIndex(members), NameAliases, 3);
  }

  /** `build_member_maps`: the dict comprehension, then the member loop,
      then the alias loop. */
  method BuildMemberMaps(members: seq<Member>) returns (idMap: map<int, Member>, index: NameIndex)
    ensures idMap == IdMap(members)
    ensures index == NameIndexOf(members)
  {
    idMap := IdMap(members);
    index := IndexMembers(members);
    MemberIndexValid(members);
    index := ResolveAliasTable(index);
  }

  /** The first loop of `build_member_maps`. */
  method IndexMembers(members: seq<Member>) returns (index: NameIndex)
    ensures index == MemberIndex(members)
  {
    index := EmptyIndex;
    for i := 0 to |members|
      invariant index == MemberIndex(members[..i])
    {
      var m := members[i];
      var fullName := Lower(m.name);
      var japaneseName := Lower(m.japaneseName);
      var firstName := FirstWord(fullName);
      ghost var before := index;
      index := Put(index, fullName, m.id);
      index := Put(index, japaneseName, m.id);
      if firstName !in index.ids {
        index := Put(index, firstName, m.id);
      }
      assert index == AddMember(before, m);
      assert members[..i + 1][..i] == members[..i];
    }
    assert members[..|members|] == members;
  }

  /** The alias loop of `build_member_maps`, over `NAME_ALIASES`. */
  method ResolveAliasTable(memberPart: NameIndex) returns (index: NameIndex)
    requires memberPart.Valid()
    ensures index == ResolveAliases(memberPart, NameAliases)
  {
    index := memberPart;
    for a := 0 to |NameAliases|
      invariant index == ResolveAliases(memberPart, NameAliases[..a])
      invariant index.Valid()
    {
      var (alias, target) := NameAliases[a];
      index := ResolveOne(index, alias, target);
      assert NameAliases[..a + 1][..a] == NameAliases[..a];
    }
    assert NameAliases[..|NameAliases|] == NameAliases;
  }

  /** One turn of the alias loop: an exact hit on the lower-cased target,
      or else the scan for the first key containing it. */
  method ResolveOne(index: NameIndex, alias: string, target: string) returns (r: NameIndex)
    requires index.Valid()
    ensures r == ResolveAlias(index, alias, target)
  {
    var targetLower := Lower(target);
    r := index;
    if targetLower in index.ids {
      r := Put(index, Lower(alias), index.ids[targetLower]);
    } else {
      var found := ScanKeys(index.keys, targetLower);
      if found.Some? {
        r := Put(index, Lower(alias), index.ids[index.keys[found.value]]);
      }
    }
  }

  /** The scan over `name_map.items()` that stops at the first key containing
      `target`. */
  method ScanKeys(keys: seq<string>, target: string) returns (found: Option<nat>)
    ensures found == FirstContaining(keys, target)
  {
    var j := 0;
    while j < |keys|
      invariant 0 <= j <= |keys|
      invariant forall i :: 0 <= i < j ==> !Contains(keys[i], target)
    {
      if Contains(keys[j], target) {
        return Some(j);
      }
      j := j + 1;
    }
    return None;
  }
}
