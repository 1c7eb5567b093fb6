/**
 * The home page's search: the query is trimmed and lower-cased, an empty
 * query shows every mall, and otherwise a mall stays in the list when its
 * name, region, city or one of its tags contains the query.
 */
module Search {
  import opened Text
  import opened Malls

  /**
   * The normalised search key: the query trimmed, then lower-cased. It is
   * empty exactly for a blank query and holds no ASCII capital.
   */
  function Query(raw: string): (r: string)
    ensures |r| == |Trim(raw)|
    ensures r == [] <==> forall i :: 0 <= i < |raw| ==> IsSpace(raw[i])
    ensures forall i :: 0 <= i < |r| ==> !('A' <= r[i] <= 'Z')
  {
    Lower(Trim(raw))
  }

  /** Some tag, lower-cased, contains the key; the tags are tried from the first on. */
  predicate SomeTagIncludes(tags: seq<string>, q: string)
    ensures SomeTagIncludes(tags, q) <==> exists i :: 0 <= i < |tags| && Includes(Lower(tags[i]), q)
    decreases |tags|
  {
    tags != [] && (Includes(Lower(tags[0]), q) || SomeTagIncludes(tags[1..], q))
  }

  /** The fields a search looks at: name, region, the city when present and non-empty, and every tag. */
  function SearchFields(m: MallRecord): seq<string> {
    [m.name, m.region]
    + (if m.city.Some? && m.city.value != [] then [m.city.value] else [])
    + (if m.tags.Some? then m.tags.value else [])
  }

  /**
   * The filter callback: an OR over name, region, city (when present and
   * non-empty) and tags (when present). Every mall matches the empty key.
   */
  predicate Matches(m: MallRecord, q: string)
    ensures q == [] ==> Matches(m, q)
  {
    || Includes(Lower(m.name), q)
    || Includes(Lower(m.region), q)
    || (m.city.Some? && m.city.value != [] && Includes(Lower(m.city.value), q))
    || (m.tags.Some? && SomeTagIncludes(m.tags.value, q))
  }

  /** A mall matches exactly when one of its searchable fields, lower-cased, contains the key. */
  lemma MatchesIffSomeField(m: MallRecord, q: string)
    ensures Matches(m, q) <==> exists i :: 0 <= i < |SearchFields(m)| && Includes(Lower(SearchFields(m)[i]), q)
  {
    var f := SearchFields(m);
    var c := if m.city.Some? && m.city.value != [] then 1 else 0;
    var tags := if m.tags.Some? then m.tags.value else [];
    assert |f| == 2 + c + |tags|;
    assert forall j :: 0 <= j < |tags| ==> f[2 + c + j] == tags[j];
    assert f[0] == m.name && f[1] == m.region;
    assert c == 1 ==> f[2] == m.city.value;
    if Matches(m, q) {
      if !Includes(Lower(m.name), q) && !Includes(Lower(m.region), q) && !(c == 1 && Includes(Lower(m.city.value), q)) {
        var j :| 0 <= j < |tags| && Includes(Lower(tags[j]), q);
        assert Includes(Lower(f[2 + c + j]), q);
      }
    }
    if exists i :: 0 <= i < |f| && Includes(Lower(f[i]), q) {
      var i :| 0 <= i < |f| && Includes(Lower(f[i]), q);
      if i >= 2 + c {
        assert f[i] == tags[i - 2 - c];
      }
    }
  }

  /** The malls that match the key, in store order, each copy kept. */
  function Keep(malls: seq<MallRecord>, q: string): (r: seq<MallRecord>)
    ensures |r| <= |malls|
    ensures forall m :: m in r <==> m in malls && Matches(m, q)
    ensures forall m :: multiset(r)[m] == if Matches(m, q) then multiset(malls)[m] else 0
  {
    if malls == [] then []
    else
      assert malls == [malls[0]] + malls[1..];
      if Matches(malls[0], q) then [malls[0]] + Keep(malls[1..], q)
      else Keep(malls[1..], q)
  }

  /** The list the search effect stores for the query `raw`. */
  function Filter(malls: seq<MallRecord>, raw: string): (r: seq<MallRecord>)
    ensures Trim(raw) == [] ==> r == malls
    ensures Trim(raw) != [] ==> forall m :: m in r <==> m in malls && Matches(m, Query(raw))
    ensures Trim(raw) != [] ==> forall m :: multiset(r)[m] == if Matches(m, Query(raw)) then multiset(malls)[m] else 0
  {
    if Trim(raw) == [] then malls else Keep(malls, Query(raw))
  }

  /** `a` is obtained from `b` by deleting elements, keeping the order of the rest. */
  predicate IsSubsequence<T(==)>(a: seq<T>, b: seq<T>)
    decreases |b|
  {
    a == [] || (b != [] && ((a[0] == b[0] && IsSubsequence(a[1..], b[1..])) || IsSubsequence(a, b[1..])))
  }

  lemma {:induction false} SubsequenceReflexive<T>(s: seq<T>)
    ensures IsSubsequence(s, s)
    decreases |s|
  {
    if s != [] {
      SubsequenceReflexive(s[1..]);
    }
  }

  /** Filtering keeps a subsequence of the store, in store order. */
  lemma {:induction false} KeepIsSubsequence(malls: seq<MallRecord>, q: string)
    ensures IsSubsequence(Keep(malls, q), malls)
    decreases |malls|
  {
    if malls != [] {
      KeepIsSubsequence(malls[1..], q);
      if Matches(malls[0], q) {
        assert Keep(malls, q)[1..] == Keep(malls[1..], q);
      }
    }
  }

  /** Filtering twice with the same key keeps the same list. */
  lemma {:induction false} KeepIdempotent(malls: seq<MallRecord>, q: string)
    ensures Keep(Keep(malls, q), q) == Keep(malls, q)
    decreases |malls|
  {
    if malls != [] {
      KeepIdempotent(malls[1..], q);
      if Matches(malls[0], q) {
        var k := Keep(malls, q);
        assert k[0] == malls[0] && k[1..] == Keep(malls[1..], q);
      }
    }
  }

  /** A blank query shows the whole store, in store order. */
  lemma BlankQueryShowsAll(malls: seq<MallRecord>, raw: string)
    requires forall i :: 0 <= i < |raw| ==> IsSpace(raw[i])
    ensures Filter(malls, raw) == malls
  {
  }

  /** The search result is a subsequence of the store, in store order. */
  lemma FilterIsSubsequence(malls: seq<MallRecord>, raw: string)
    ensures IsSubsequence(Filter(malls, raw), malls)
  {
    if Trim(raw) == [] {
      SubsequenceReflexive(malls);
    } else {
      KeepIsSubsequence(malls, Query(raw));
    }
  }

  /** Searching the search result again with the same query changes nothing. */
  lemma FilterIdempotent(malls: seq<MallRecord>, raw: string)
    ensures Filter(Filter(malls, raw), raw) == Filter(malls, raw)
  {
    if Trim(raw) != [] {
      KeepIdempotent(malls, Query(raw));
    }
  }

  /**
   * A missing city or tag list never makes a mall match; such a mall still
   * matches through its name or region.
   */
  lemma AbsentFieldsNeverMatch(m: MallRecord, q: string)
    requires m.city.None? && m.tags.None?
    ensures Matches(m, q) <==> Includes(Lower(m.name), q) || Includes(Lower(m.region), q)
  {
  }

  /** A mall whose only matching field is a tag is found through that tag. */
  lemma TagMatchSuffices(m: MallRecord, q: string, i: nat)
    requires m.tags.Some? && i < |m.tags.value| && Includes(Lower(m.tags.value[i]), q)
    ensures Matches(m, q)
  {
  }

  /**
   * The filtered list is empty exactly when the query is not blank and no
   * mall of the store matches the normalised query; a blank query empties
   * the list only for an empty store.
   */
  lemma FilterEmptyIff(malls: seq<MallRecord>, raw: string)
    ensures Filter(malls, raw) == [] <==>
      forall m :: m in malls ==> Trim(raw) != [] && !Matches(m, Query(raw))
  {
    var r := Filter(malls, raw);
    if r != [] {
      assert r[0] in r && r[0] in malls;
    }
    if malls != [] && (Trim(raw) == [] || exists m :: m in malls && Matches(m, Query(raw))) {
      if Trim(raw) == [] {
        assert malls[0] in r;
      } else {
        var m :| m in malls && Matches(m, Query(raw));
        assert m in r;
      }
    }
  }

  /**
   * Whether the "no results" message shows over the store `malls` and the
   * raw query: exactly when something was typed and either no mall matches
   * the normalised query, or the query is blank and the store itself is
   * empty.
   */
  predicate ShowNoResults(malls: seq<MallRecord>, raw: string)
    ensures ShowNoResults(malls, raw) <==>
      raw != [] && forall m :: m in malls ==> Trim(raw) != [] && !Matches(m, Query(raw))
  {
    FilterEmptyIff(malls, raw);
    Filter(malls, raw) == [] && raw != []
  }

  /** The example store of one market in 서울특별시 tagged 농산물. */
  function Gangnam(): MallRecord {
    MallRecord("1", "강남마켓", "https://example.kr", "서울특별시", None, Some(["농산물"]),
      None, None, None, None, None, None)
  }

  /** Searching the tag finds the market. */
  lemma SearchFindsTag()
    ensures Filter([Gangnam()], "농산물") == [Gangnam()]
  {
    var m := Gangnam();
    QueryOfPlainWord("농산물");
    assert Includes(Lower(m.tags.value[0]), "농산물");
    assert Matches(m, "농산물");
  }

  /** A query without white space or ASCII capitals is its own search key. */
  lemma QueryOfPlainWord(raw: string)
    requires forall i :: 0 <= i < |raw| ==> !IsSpace(raw[i]) && !('A' <= raw[i] <= 'Z')
    ensures Query(raw) == raw
    ensures raw != [] ==> forall malls :: Filter(malls, raw) == Keep(malls, raw)
  {
    assert TrimStart(raw) == raw;
    assert TrimEnd(raw) == raw;
    LowerKeepsUncased(raw);
  }

  /** A field without ASCII capitals that lacks the key's first character does not match it. */
  lemma FieldLacksKey(field: string, q: string)
    requires forall i :: 0 <= i < |field| ==> !('A' <= field[i] <= 'Z')
    requires q != [] && q[0] !in field
    ensures !Includes(Lower(field), q)
  {
    LowerKeepsUncased(field);
    MissingFirstChar(field, q);
  }

  /** No field of the example market contains 부산. */
  lemma GangnamLacksBusan()
    ensures !Matches(Gangnam(), "부산")
  {
    var m := Gangnam();
    FieldLacksKey(m.name, "부산");
    FieldLacksKey(m.region, "부산");
    FieldLacksKey(m.tags.value[0], "부산");
  }

  /** Searching 부산 leaves the market out. */
  lemma SearchMissesOtherRegion()
    ensures Filter([Gangnam()], "부산") == []
  {
    QueryOfPlainWord("부산");
    GangnamLacksBusan();
  }


}
