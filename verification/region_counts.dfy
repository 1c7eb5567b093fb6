/**
 * The build-time region tally: one walk over the whole mall list that
 * adds one to the bucket of each mall's region, skipping malls without a
 * region.
 */
module RegionCounts {
  import opened Malls

  /** Number of malls whose region is exactly `r` (counted from the back, so that prefixes extend naturally). */
  function CountOf(malls: seq<MallRecord>, r: string): (n: nat)
    ensures n <= |malls|
  {
    if malls == [] then 0
    else CountOf(malls[..|malls| - 1], r) + (if malls[|malls| - 1].region == r then 1 else 0)
  }

  /** Number of malls that have a non-empty region. */
  function Located(malls: seq<MallRecord>): (n: nat)
    ensures n <= |malls|
  {
    if malls == [] then 0
    else Located(malls[..|malls| - 1]) + (if malls[|malls| - 1].region != [] then 1 else 0)
  }

  /** Some key of a non-empty dictionary. */
  ghost function Pick(counts: map<string, int>): (k: string)
    requires counts != map[]
    ensures k in counts
  {
    var k :| k in counts; k
  }

  /** Sum of the values of a region dictionary. */
  ghost function Total(counts: map<string, int>): int
    decreases |counts|
  {
    if counts == map[] then 0
    else
      var k := Pick(counts);
      assert |counts - {k}| < |counts| by { assert (counts - {k}).Keys == counts.Keys - {k}; }
      counts[k] + Total(counts - {k})
  }

  /** The total can be split off at any key, not only the one `Total` picks. */
  lemma {:induction false} TotalSplit(counts: map<string, int>, r: string)
    requires r in counts
    ensures Total(counts) == counts[r] + Total(counts - {r})
    decreases |counts|
  {
    assert counts != map[] by { assert r in counts.Keys; }
    var k := Pick(counts);
    assert |counts - {k}| < |counts| by { assert (counts - {k}).Keys == counts.Keys - {k}; }
    assert Total(counts) == counts[k] + Total(counts - {k});
    if k != r {
      assert |counts - {r}| < |counts| by { assert (counts - {r}).Keys == counts.Keys - {r}; }
      TotalSplit(counts - {k}, r);
      TotalSplit(counts - {r}, k);
      assert counts - {k} - {r} == counts - {r} - {k};
    }
  }

  /** Adding one to a bucket, creating it at 1 if absent, adds one to the total. */
  lemma TotalBump(counts: map<string, int>, r: string)
    ensures Total(counts[r := (if r in counts then counts[r] else 0) + 1]) == Total(counts) + 1
  {
    var bumped := counts[r := (if r in counts then counts[r] else 0) + 1];
    TotalSplit(bumped, r);
    if r in counts {
      TotalSplit(counts, r);
      assert bumped - {r} == counts - {r};
    } else {
      assert bumped - {r} == counts;
    }
  }

  /**
   * `counts` is the region tally of `malls`: a key exists exactly for each
   * non-empty region some mall has, and holds the number of such malls.
   */
  ghost predicate IsRegionTally(counts: map<string, int>, malls: seq<MallRecord>) {
    && (forall r :: r in counts <==> r != [] && CountOf(malls, r) > 0)
    && (forall r :: r in counts ==> counts[r] == CountOf(malls, r))
  }

  /** A region has a positive count exactly when some mall lies in it. */
  lemma {:induction false} CountPositiveIff(malls: seq<MallRecord>, r: string)
    ensures CountOf(malls, r) > 0 <==> exists i :: 0 <= i < |malls| && malls[i].region == r
    decreases |malls|
  {
    if malls != [] {
      var init := malls[..|malls| - 1];
      CountPositiveIff(init, r);
      if exists i :: 0 <= i < |init| && init[i].region == r {
        var i :| 0 <= i < |init| && init[i].region == r;
        assert malls[i] == init[i];
      }
      if exists i :: 0 <= i < |malls| && malls[i].region == r {
        var i :| 0 <= i < |malls| && malls[i].region == r;
        if i < |init| {
          assert init[i] == malls[i];
        }
      }
    }
  }

  /** The tally is determined by the mall list: accumulation order leaves no trace. */
  lemma TallyUnique(a: map<string, int>, b: map<string, int>, malls: seq<MallRecord>)
    requires IsRegionTally(a, malls) && IsRegionTally(b, malls)
    ensures a == b
  {
  }

  /**
   * The loop in `getStaticProps`: for every mall with a non-empty region,
   * the region's bucket goes up by one, starting from 0 when it is absent.
   */
  method CountByRegion(malls: seq<MallRecord>) returns (counts: map<string, int>)
    ensures IsRegionTally(counts, malls)
    ensures Total(counts) == Located(malls)
  {
    counts := map[];
    var i := 0;
    while i < |malls|
      invariant 0 <= i <= |malls|
      invariant IsRegionTally(counts, malls[..i])
      invariant Total(counts) == Located(malls[..i])
    {
      var region := malls[i].region;
      assert malls[..i + 1][..i] == malls[..i];
      if region != [] {
        TotalBump(counts, region);
        counts := counts[region := (if region in counts then counts[region] else 0) + 1];
      }
      i := i + 1;
    }
    assert malls[..i] == malls;
  }

  /** A mall record with only a region filled in. */
  function InRegion(id: string, region: string): MallRecord {
    MallRecord(id, "", "", region, None, None, None, None, None, None, None, None)
  }

  /**
   * Three malls in 서울특별시, one in 부산광역시 and one without a region
   * give two buckets, 3 and 1, and a total of 4.
   */
  lemma TallyExample(counts: map<string, int>)
    requires IsRegionTally(counts, [InRegion("1", "서울특별시"), InRegion("2", "서울특별시"),
      InRegion("3", "부산광역시"), InRegion("4", "서울특별시"), InRegion("5", "")])
    ensures counts == map["서울특별시" := 3, "부산광역시" := 1]
  {
    var seoul, busan := "서울특별시", "부산광역시";
    var m1 := [InRegion("1", seoul)];
    var m2 := m1 + [InRegion("2", seoul)];
    var m3 := m2 + [InRegion("3", busan)];
    var m4 := m3 + [InRegion("4", seoul)];
    var malls := m4 + [InRegion("5", "")];
    assert m1[..0] == [] && m2[..1] == m1 && m3[..2] == m2 && m4[..3] == m3 && malls[..4] == m4;
    var expected := map[seoul := 3, busan := 1];
    forall r ensures CountOf(malls, r) == (if r == seoul then 3 else if r == busan then 1 else if r == "" then 1 else 0) {
      assert CountOf(m1, r) == (if r == seoul then 1 else 0);
      assert CountOf(m2, r) == (if r == seoul then 2 else 0);
      assert CountOf(m3, r) == (if r == seoul then 2 else if r == busan then 1 else 0);
      assert CountOf(m4, r) == (if r == seoul then 3 else if r == busan then 1 else 0);
    }
    assert malls == [InRegion("1", "서울특별시"), InRegion("2", "서울특별시"),
      InRegion("3", "부산광역시"), InRegion("4", "서울특별시"), InRegion("5", "")];
    assert counts.Keys == expected.Keys;
  }
}
