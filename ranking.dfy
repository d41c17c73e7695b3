/**
 * The proximity ranking of App.tsx: `processDoctors` (department filter,
 * distance sort, best-match flag) and `processAmbulances` (distance sort).
 * The haversine distance is a parameter: the model holds for any distance
 * function.
 */
module Ranking {
  import opened Wrappers
  import opened Records
  import opened Strings
  import opened Sequences
  import opened StableSort

  /** The great-circle distance in km from the user to a provider (App.tsx:75-87). */
  type DistanceFn = (Coordinates, Coordinates) -> real

  /** The key that replaces a falsy distance in the comparator. */
  const FallbackDistance: real := 999.0

  /** How many of the nearest records compete for the best-match flag. */
  const TopCount: nat := 3

  /**
   * The comparator's key (App.tsx:106): a distance that is absent or 0 is
   * falsy in JavaScript and is replaced by 999; any other distance is its own key.
   */
  function SortKey(distance: Option<real>): (k: real)
    ensures distance.None? || distance.value == 0.0 ==> k == FallbackDistance
    ensures distance.Some? && distance.value != 0.0 ==> k == distance.value
  {
    if distance.None? || distance.value == 0.0 then FallbackDistance else distance.value
  }

  function DoctorKey(d: Doctor): real {
    SortKey(d.distance)
  }

  function AmbulanceKey(a: Ambulance): real {
    SortKey(a.distance)
  }

  // ---------------------------------------------------------------------------
  // Stage 1: the department filter

  /** The doctor's lower-cased department contains the already lower-cased query (App.tsx:94). */
  predicate InDepartment(d: Doctor, lowerQuery: Text) {
    Contains(ToLower(d.department), lowerQuery)
  }

  function KeepDepartment(ds: seq<Doctor>, lowerQuery: Text): (r: seq<Doctor>)
    ensures |r| <= |ds|
    ensures forall d :: d in r ==> d in ds && InDepartment(d, lowerQuery)
  {
    if ds == [] then []
    else (if InDepartment(ds[0], lowerQuery) then [ds[0]] else []) + KeepDepartment(ds[1..], lowerQuery)
  }

  /**
   * The department filter (App.tsx:92-95): an absent or empty query is falsy
   * and filters nothing; otherwise only the doctors in the department are kept.
   */
  function FilterByDepartment(ds: seq<Doctor>, department: Option<Text>): (r: seq<Doctor>)
    ensures |r| <= |ds|
    ensures forall d :: d in r ==> d in ds
    ensures department.Some? && department.value != [] ==>
      forall d :: d in r ==> Contains(ToLower(d.department), ToLower(department.value))
  {
    if department.None? || department.value == [] then ds
    else KeepDepartment(ds, ToLower(department.value))
  }

  lemma {:induction false} KeepDepartmentSpec(ds: seq<Doctor>, lowerQuery: Text)
    ensures forall d :: d in KeepDepartment(ds, lowerQuery) ==> InDepartment(d, lowerQuery)
    ensures IsSubsequence(KeepDepartment(ds, lowerQuery), ds)
    ensures forall d :: multiset(KeepDepartment(ds, lowerQuery))[d]
                     == if InDepartment(d, lowerQuery) then multiset(ds)[d] else 0
  {
    if ds != [] {
      KeepDepartmentSpec(ds[1..], lowerQuery);
      var rest := KeepDepartment(ds[1..], lowerQuery);
      var r := KeepDepartment(ds, lowerQuery);
      assert ds == [ds[0]] + ds[1..];
      if InDepartment(ds[0], lowerQuery) {
        assert r == [ds[0]] + rest;
        assert r[1..] == rest;
      } else {
        assert r == rest;
        if r != [] {
          assert IsSubsequence(r, ds[1..]);
        }
      }
    }
  }

  /**
   * With a non-empty query the filter keeps exactly the doctors whose
   * lower-cased department contains the lower-cased query, each as often as
   * in the input and in input order; an absent or empty query keeps all.
   */
  lemma FilterByDepartmentSpec(ds: seq<Doctor>, department: Option<Text>)
    ensures department.None? || department.value == [] ==> FilterByDepartment(ds, department) == ds
    ensures department.Some? && department.value != [] ==>
      var r, q := FilterByDepartment(ds, department), ToLower(department.value);
      && (forall d :: d in r ==> Contains(ToLower(d.department), q))
      && IsSubsequence(r, ds)
      && (forall d :: multiset(r)[d] == if Contains(ToLower(d.department), q) then multiset(ds)[d] else 0)
    ensures |FilterByDepartment(ds, department)| <= |ds|
  {
    if department.Some? && department.value != [] {
      KeepDepartmentSpec(ds, ToLower(department.value));
      SubsequenceNoLonger(FilterByDepartment(ds, department), ds);
    }
  }

  // ---------------------------------------------------------------------------
  // Stage 2: attaching distances and sorting by them

  /** A doctor with coordinates gets its distance from `user`; one without is returned as it is. */
  function WithDoctorDistance(d: Doctor, user: Coordinates, distanceKm: DistanceFn): (r: Doctor)
    ensures r.coordinates == d.coordinates
    ensures d.coordinates.Some? ==> r.distance == Some(distanceKm(user, d.coordinates.value))
    ensures d.coordinates.None? ==> r == d
    ensures r.(distance := d.distance) == d
  {
    match d.coordinates
    case Some(c) => d.(distance := Some(distanceKm(user, c)))
    case None => d
  }

  function AttachDoctorDistances(ds: seq<Doctor>, user: Coordinates, distanceKm: DistanceFn): (r: seq<Doctor>)
    ensures |r| == |ds|
    ensures forall i :: 0 <= i < |ds| ==> r[i] == WithDoctorDistance(ds[i], user, distanceKm)
  {
    seq(|ds|, i requires 0 <= i < |ds| => WithDoctorDistance(ds[i], user, distanceKm))
  }

  /**
   * The distance stage (App.tsx:96-107): only when the user's location is
   * known, attach distances and sort by the fallback key.
   */
  function RankDoctors(ds: seq<Doctor>, userLocation: Option<Coordinates>, distanceKm: DistanceFn): (r: seq<Doctor>)
    ensures |r| == |ds|
  {
    match userLocation
    case None => ds
    case Some(user) => SortByKey(AttachDoctorDistances(ds, user, distanceKm), DoctorKey)
  }

  /**
   * Without a location the list is left as it is. With one, the result is the
   * list with distances attached, in non-decreasing order of `distance || 999`,
   * with equal keys in input order, and nothing added or dropped.
   */
  lemma RankDoctorsSpec(ds: seq<Doctor>, userLocation: Option<Coordinates>, distanceKm: DistanceFn)
    ensures userLocation.None? ==> RankDoctors(ds, userLocation, distanceKm) == ds
    ensures userLocation.Some? ==>
      var r, attached := RankDoctors(ds, userLocation, distanceKm), AttachDoctorDistances(ds, userLocation.value, distanceKm);
      && SortedBy(r, DoctorKey)
      && SameKeyClasses(r, attached, DoctorKey)
      && multiset(r) == multiset(attached)
  {
    if userLocation.Some? {
      SortByKeyCorrect(AttachDoctorDistances(ds, userLocation.value, distanceKm), DoctorKey);
    }
  }

  /**
   * The `|| 999` quirk: in a ranked list a doctor at distance exactly 0 comes
   * after every doctor at a distance strictly between 0 and 999.
   */
  lemma ZeroDistanceSortsAsFallback(r: seq<Doctor>, i: int, j: int)
    requires SortedBy(r, DoctorKey)
    requires 0 <= i < |r| && 0 <= j < |r|
    requires r[j].distance == Some(0.0)
    requires r[i].distance.Some? && 0.0 < r[i].distance.value < FallbackDistance
    ensures i < j
  {
  }

  // ---------------------------------------------------------------------------
  // Stage 3: the best match among the first three

  /**
   * The reduce over the top candidates (App.tsx:112-114) as a left fold over
   * indices: the candidate kept so far, `prev`, is replaced by the one at `i`
   * only when that one is rated strictly higher.
   */
  function ReduceBest(top: seq<Doctor>, i: nat, prev: nat): (b: nat)
    requires prev < i <= |top|
    ensures b < |top|
    decreases |top| - i
  {
    if i == |top| then prev
    else ReduceBest(top, i + 1, if top[i].rating > top[prev].rating then i else prev)
  }

  /** The reduce over the candidates has no initial value, so it starts from the first one (App.tsx:112). */
  function BestCandidate(top: seq<Doctor>): (b: nat)
    requires |top| > 0
    ensures b < |top|
  {
    ReduceBest(top, 1, 0)
  }

  /** `top[b]` has the highest rating in `top`, and no earlier element has that rating. */
  ghost predicate IsFirstHighestRated(top: seq<Doctor>, b: int) {
    && 0 <= b < |top|
    && (forall j :: 0 <= j < |top| ==> top[j].rating <= top[b].rating)
    && (forall j :: 0 <= j < b ==> top[j].rating < top[b].rating)
  }

  /** At most one index is the first highest rated. */
  lemma FirstHighestRatedIsUnique(top: seq<Doctor>, b: int, c: int)
    requires IsFirstHighestRated(top, b) && IsFirstHighestRated(top, c)
    ensures b == c
  {
    if b < c {
      EarlierIsLower(top, c, b);
      assert false;
    } else if c < b {
      EarlierIsLower(top, b, c);
      assert false;
    }
  }

  lemma EarlierIsLower(top: seq<Doctor>, b: int, j: int)
    requires IsFirstHighestRated(top, b) && 0 <= j < b
    ensures top[j].rating < top[b].rating
  {
  }

  lemma {:induction false} ReduceBestSpec(top: seq<Doctor>, i: nat, prev: nat)
    requires prev < i <= |top|
    requires IsFirstHighestRated(top[..i], prev)
    ensures IsFirstHighestRated(top, ReduceBest(top, i, prev))
    decreases |top| - i
  {
    if i == |top| {
      assert top[..i] == top;
    } else {
      var next := if top[i].rating > top[prev].rating then i else prev;
      assert top[..i + 1][..i] == top[..i];
      ReduceBestSpec(top, i + 1, next);
    }
  }

  /** The reduce keeps the earliest of the highest-rated candidates. */
  lemma BestCandidateSpec(top: seq<Doctor>)
    requires |top| > 0
    ensures IsFirstHighestRated(top, BestCandidate(top))
  {
    ReduceBestSpec(top, 1, 0);
  }

  /** Every record's best-match flag is reset to false (App.tsx:110). */
  function ClearBestMatch(ds: seq<Doctor>): (r: seq<Doctor>)
    ensures |r| == |ds|
    ensures forall i :: 0 <= i < |ds| ==> r[i] == ds[i].(isBestMatch := Some(false))
  {
    seq(|ds|, i requires 0 <= i < |ds| => ds[i].(isBestMatch := Some(false)))
  }

  /** Records whose id equals `id` get the flag set to true; the others are left alone (App.tsx:115-117). */
  function FlagById(ds: seq<Doctor>, id: Text): (r: seq<Doctor>)
    ensures |r| == |ds|
    ensures forall i :: 0 <= i < |ds| ==> r[i] == if ds[i].id == id then ds[i].(isBestMatch := Some(true)) else ds[i]
  {
    seq(|ds|, i requires 0 <= i < |ds| => if ds[i].id == id then ds[i].(isBestMatch := Some(true)) else ds[i])
  }

  /** For a non-empty list, clear every flag, then flag the best of the first three by id (App.tsx:109-118). */
  function MarkBestMatch(ds: seq<Doctor>): (r: seq<Doctor>)
    ensures |r| == |ds|
  {
    if |ds| == 0 then ds
    else
      var cleared := ClearBestMatch(ds);
      var top := cleared[..Min(|cleared|, TopCount)];
      FlagById(cleared, top[BestCandidate(top)].id)
  }

  /**
   * Marking changes nothing but the flags: there is an index `b` among the
   * first three that holds the earliest highest rating there, and every
   * record's flag becomes "has the same id as record `b`".
   */
  lemma MarkBestMatchSpec(ds: seq<Doctor>)
    requires |ds| > 0
    ensures exists b ::
      && 0 <= b < Min(|ds|, TopCount)
      && IsFirstHighestRated(ds[..Min(|ds|, TopCount)], b)
      && forall i :: 0 <= i < |ds| ==> MarkBestMatch(ds)[i] == ds[i].(isBestMatch := Some(ds[i].id == ds[b].id))
  {
    var cleared := ClearBestMatch(ds);
    var m := Min(|ds|, TopCount);
    var top := cleared[..m];
    var b := BestCandidate(top);
    BestCandidateSpec(top);
    assert IsFirstHighestRated(ds[..m], b) by {
      forall j | 0 <= j < m ensures ds[..m][j].rating == top[j].rating {
      }
    }
    assert top[b].id == ds[b].id;
  }

  function IdOf(d: Doctor): Text {
    d.id
  }

  /** No two records share an id. */
  ghost predicate UniqueIds(ds: seq<Doctor>) {
    Distinct(MapSeq(ds, IdOf))
  }

  /**
   * With unique ids, a non-empty marked list has every flag set, exactly one
   * of them true, at the earliest highest-rated of the first three records.
   */
  lemma MarkBestMatchUnique(ds: seq<Doctor>)
    requires |ds| > 0 && UniqueIds(ds)
    ensures var r := MarkBestMatch(ds);
      exists b ::
        && 0 <= b < Min(|ds|, TopCount)
        && IsFirstHighestRated(ds[..Min(|ds|, TopCount)], b)
        && forall i :: 0 <= i < |r| ==> r[i].isBestMatch.Some? && (r[i].isBestMatch.value <==> i == b)
  {
    MarkBestMatchSpec(ds);
    var m := Min(|ds|, TopCount);
    var b :| 0 <= b < m && IsFirstHighestRated(ds[..m], b)
      && forall i :: 0 <= i < |ds| ==> MarkBestMatch(ds)[i] == ds[i].(isBestMatch := Some(ds[i].id == ds[b].id));
    var r := MarkBestMatch(ds);
    forall i | 0 <= i < |r| ensures r[i].isBestMatch.Some? && (r[i].isBestMatch.value <==> i == b) {
      if i < b {
        assert ds[i].id != ds[b].id;
      } else if b < i {
        assert ds[b].id != ds[i].id;
      }
    }
  }

  /** The department filter drops records but never repeats one, so it keeps ids unique. */
  lemma {:induction false} KeepDepartmentUnique(ds: seq<Doctor>, lowerQuery: Text)
    requires UniqueIds(ds)
    ensures UniqueIds(KeepDepartment(ds, lowerQuery))
  {
    if ds != [] {
      var rest := KeepDepartment(ds[1..], lowerQuery);
      assert UniqueIds(ds[1..]) by {
        forall i, j | 0 <= i < j < |ds[1..]| ensures ds[1..][i].id != ds[1..][j].id {
          assert ds[1..][i] == ds[i + 1] && ds[1..][j] == ds[j + 1];
        }
      }
      KeepDepartmentUnique(ds[1..], lowerQuery);
      if InDepartment(ds[0], lowerQuery) {
        var r := [ds[0]] + rest;
        forall k | 0 <= k < |rest| ensures rest[k].id != ds[0].id {
          assert rest[k] in ds[1..];
          var p :| 0 <= p < |ds[1..]| && ds[1..][p] == rest[k];
          assert ds[1..][p] == ds[p + 1];
        }
        forall i, j | 0 <= i < j < |r| ensures r[i].id != r[j].id {
          assert r[j] == rest[j - 1];
          if 0 < i {
            assert r[i] == rest[i - 1];
          }
        }
      }
    }
  }

  /** At most one record is flagged as the best match. */
  ghost predicate AtMostOneBestMatch(ds: seq<Doctor>) {
    forall i, j :: 0 <= i < |ds| && 0 <= j < |ds| && ds[i].isBestMatch == Some(true) && ds[j].isBestMatch == Some(true) ==> i == j
  }

  /**
   * Ranking keeps ids unique: the filter only drops records, attaching
   * distances and marking keep every id in place, and the sort only permutes.
   */
  lemma ProcessDoctorsKeepsIdsUnique(ds: seq<Doctor>, userLocation: Option<Coordinates>, department: Option<Text>, distanceKm: DistanceFn)
    requires UniqueIds(ds)
    ensures UniqueIds(ProcessDoctors(ds, userLocation, department, distanceKm))
  {
    var filtered := FilterByDepartment(ds, department);
    if department.Some? && department.value != [] {
      KeepDepartmentUnique(ds, ToLower(department.value));
    }
    var ranked := RankDoctors(filtered, userLocation, distanceKm);
    if userLocation.Some? {
      var attached := AttachDoctorDistances(filtered, userLocation.value, distanceKm);
      assert UniqueIds(attached) by {
        assert forall i :: 0 <= i < |attached| ==> attached[i].id == filtered[i].id;
      }
      RankDoctorsSpec(filtered, userLocation, distanceKm);
      MapSeqPermutation(ranked, attached, IdOf);
      DistinctPermutation(MapSeq(ranked, IdOf), MapSeq(attached, IdOf));
    }
    if |ranked| > 0 {
      MarkBestMatchSpec(ranked);
      var r := MarkBestMatch(ranked);
      assert forall i :: 0 <= i < |r| ==> r[i].id == ranked[i].id;
    }
  }

  /**
   * With a location, records that have neither coordinates nor a distance all
   * sort under the fallback key, so the stable sort leaves them in input order.
   */
  lemma RankWithoutPositionsKeepsOrder(ds: seq<Doctor>, user: Coordinates, distanceKm: DistanceFn)
    requires forall i :: 0 <= i < |ds| ==> ds[i].coordinates.None? && ds[i].distance.None?
    ensures RankDoctors(ds, Some(user), distanceKm) == ds
  {
    var attached := AttachDoctorDistances(ds, user, distanceKm);
    assert attached == ds;
    SortEqualKeysIsIdentity(ds, DoctorKey, FallbackDistance);
  }

  // ---------------------------------------------------------------------------
  // The whole passes

  /** The doctor list that the doctor-processing step stores as the ranked list (App.tsx:90-120). */
  function ProcessDoctors(ds: seq<Doctor>, userLocation: Option<Coordinates>, department: Option<Text>, distanceKm: DistanceFn): (r: seq<Doctor>)
    ensures |r| == |FilterByDepartment(ds, department)|
  {
    MarkBestMatch(RankDoctors(FilterByDepartment(ds, department), userLocation, distanceKm))
  }

  /** A record with its derived fields dropped: what ranking must not change. */
  function Unranked(d: Doctor): Doctor {
    d.(distance := None, isBestMatch := None)
  }

  /**
   * Without a location, the result is the filtered list in its own order, each
   * record unchanged apart from its best-match flag.
   */
  lemma ProcessDoctorsWithoutLocation(ds: seq<Doctor>, department: Option<Text>, distanceKm: DistanceFn)
    ensures var r, filtered := ProcessDoctors(ds, None, department, distanceKm), FilterByDepartment(ds, department);
      |r| == |filtered| && forall i :: 0 <= i < |r| ==> r[i].(isBestMatch := filtered[i].isBestMatch) == filtered[i]
  {
    var filtered := FilterByDepartment(ds, department);
    if |filtered| > 0 {
      MarkBestMatchSpec(filtered);
    }
  }

  /** A record with its best-match flag dropped: what marking must not change. */
  function WithoutFlag(d: Doctor): Doctor {
    d.(isBestMatch := None)
  }

  /** Every ranked record that has coordinates carries its distance from the user. */
  lemma RankedDistances(ds: seq<Doctor>, user: Coordinates, distanceKm: DistanceFn)
    ensures forall d :: d in RankDoctors(ds, Some(user), distanceKm) && d.coordinates.Some? ==>
      d.distance == Some(distanceKm(user, d.coordinates.value))
  {
    var attached := AttachDoctorDistances(ds, user, distanceKm);
    var ranked := RankDoctors(ds, Some(user), distanceKm);
    RankDoctorsSpec(ds, Some(user), distanceKm);
    forall d | d in ranked && d.coordinates.Some?
      ensures d.distance == Some(distanceKm(user, d.coordinates.value))
    {
      assert d in multiset(ranked);
      assert d in multiset(attached);
      var j :| 0 <= j < |attached| && attached[j] == d;
      assert d == WithDoctorDistance(ds[j], user, distanceKm);
    }
  }

  /**
   * With a location, the result is in non-decreasing order of
   * `distance || 999`; every record with coordinates carries its distance
   * from the user; marking changes nothing but the flags of the ranked list;
   * and apart from distances and flags the result holds the same records as
   * the filtered list, each as often.
   */
  lemma ProcessDoctorsWithLocation(ds: seq<Doctor>, user: Coordinates, department: Option<Text>, distanceKm: DistanceFn)
    ensures var r, filtered := ProcessDoctors(ds, Some(user), department, distanceKm), FilterByDepartment(ds, department);
      && SortedBy(r, DoctorKey)
      && (forall i :: 0 <= i < |r| && r[i].coordinates.Some? ==>
            r[i].distance == Some(distanceKm(user, r[i].coordinates.value)))
      && MapSeq(r, WithoutFlag) == MapSeq(RankDoctors(filtered, Some(user), distanceKm), WithoutFlag)
      && multiset(MapSeq(r, Unranked)) == multiset(MapSeq(filtered, Unranked))
  {
    var filtered := FilterByDepartment(ds, department);
    var ranked := RankDoctors(filtered, Some(user), distanceKm);
    var r := ProcessDoctors(ds, Some(user), department, distanceKm);
    RankDoctorsSpec(filtered, Some(user), distanceKm);
    RankedDistances(filtered, user, distanceKm);
    RankedPermutesUnranked(filtered, user, distanceKm);
    MarkChangesOnlyFlags(ranked);
    assert forall i :: 0 <= i < |r| ==> ranked[i] in ranked;
    assert forall i :: 0 <= i < |r| ==> DoctorKey(r[i]) == DoctorKey(ranked[i]);
  }

  /** Ignoring distances and flags, the distance stage only permutes the records. */
  lemma RankedPermutesUnranked(ds: seq<Doctor>, user: Coordinates, distanceKm: DistanceFn)
    ensures multiset(MapSeq(RankDoctors(ds, Some(user), distanceKm), Unranked)) == multiset(MapSeq(ds, Unranked))
  {
    var attached := AttachDoctorDistances(ds, user, distanceKm);
    RankDoctorsSpec(ds, Some(user), distanceKm);
    MapSeqPermutation(RankDoctors(ds, Some(user), distanceKm), attached, Unranked);
    assert MapSeq(attached, Unranked) == MapSeq(ds, Unranked);
  }

  /** Marking keeps every field but the flag, of every record, in place. */
  lemma MarkChangesOnlyFlags(ds: seq<Doctor>)
    ensures var r := MarkBestMatch(ds);
      && (forall i :: 0 <= i < |r| ==> r[i].distance == ds[i].distance && r[i].coordinates == ds[i].coordinates)
      && MapSeq(r, WithoutFlag) == MapSeq(ds, WithoutFlag)
      && MapSeq(r, Unranked) == MapSeq(ds, Unranked)
  {
    var r := MarkBestMatch(ds);
    if |ds| > 0 {
      MarkBestMatchSpec(ds);
    }
    assert forall i :: 0 <= i < |r| ==> WithoutFlag(r[i]) == WithoutFlag(ds[i]) && Unranked(r[i]) == Unranked(ds[i]);
  }

  /**
   * A non-empty result whose ids are unique has exactly one flagged record;
   * it is among the first three and is the earliest of the highest rated there.
   */
  lemma ProcessDoctorsBestMatch(ds: seq<Doctor>, userLocation: Option<Coordinates>, department: Option<Text>, distanceKm: DistanceFn)
    requires var r := ProcessDoctors(ds, userLocation, department, distanceKm); |r| > 0 && UniqueIds(r)
    ensures var r := ProcessDoctors(ds, userLocation, department, distanceKm);
      exists b ::
        && 0 <= b < Min(|r|, TopCount)
        && IsFirstHighestRated(r[..Min(|r|, TopCount)], b)
        && forall i :: 0 <= i < |r| ==> r[i].isBestMatch.Some? && (r[i].isBestMatch.value <==> i == b)
  {
    MarkedListBestMatch(RankDoctors(FilterByDepartment(ds, department), userLocation, distanceKm));
  }

  /** `MarkBestMatchUnique`, stated on the marked list instead of its input. */
  lemma MarkedListBestMatch(ranked: seq<Doctor>)
    requires |ranked| > 0 && UniqueIds(MarkBestMatch(ranked))
    ensures var r := MarkBestMatch(ranked);
      exists b ::
        && 0 <= b < Min(|r|, TopCount)
        && IsFirstHighestRated(r[..Min(|r|, TopCount)], b)
        && forall i :: 0 <= i < |r| ==> r[i].isBestMatch.Some? && (r[i].isBestMatch.value <==> i == b)
  {
    var r := MarkBestMatch(ranked);
    var m := Min(|r|, TopCount);
    MarkBestMatchSpec(ranked);
    assert forall i :: 0 <= i < |r| ==> r[i].id == ranked[i].id && r[i].rating == ranked[i].rating;
    assert UniqueIds(ranked);
    MarkBestMatchUnique(ranked);
    var b :| 0 <= b < m && IsFirstHighestRated(ranked[..m], b)
      && forall i :: 0 <= i < |r| ==> r[i].isBestMatch.Some? && (r[i].isBestMatch.value <==> i == b);
    assert IsFirstHighestRated(r[..m], b) by {
      forall j | 0 <= j < m ensures r[..m][j].rating == ranked[..m][j].rating {
      }
    }
  }

  // ---------------------------------------------------------------------------
  // Ambulances

  /** An ambulance with coordinates gets its distance from `user`; one without is returned as it is. */
  function WithAmbulanceDistance(a: Ambulance, user: Coordinates, distanceKm: DistanceFn): (r: Ambulance)
    ensures r.coordinates == a.coordinates
    ensures a.coordinates.Some? ==> r.distance == Some(distanceKm(user, a.coordinates.value))
    ensures a.coordinates.None? ==> r == a
    ensures r.(distance := a.distance) == a
  {
    match a.coordinates
    case Some(c) => a.(distance := Some(distanceKm(user, c)))
    case None => a
  }

  function AttachAmbulanceDistances(ambulances: seq<Ambulance>, user: Coordinates, distanceKm: DistanceFn): (r: seq<Ambulance>)
    ensures |r| == |ambulances|
    ensures forall i :: 0 <= i < |ambulances| ==> r[i] == WithAmbulanceDistance(ambulances[i], user, distanceKm)
  {
    seq(|ambulances|, i requires 0 <= i < |ambulances| => WithAmbulanceDistance(ambulances[i], user, distanceKm))
  }

  /** The ambulance list that the ambulance-processing step writes back (App.tsx:122-137). */
  function ProcessAmbulances(ambulances: seq<Ambulance>, userLocation: Option<Coordinates>, distanceKm: DistanceFn): (r: seq<Ambulance>)
    ensures |r| == |ambulances|
  {
    match userLocation
    case None => ambulances
    case Some(user) => SortByKey(AttachAmbulanceDistances(ambulances, user, distanceKm), AmbulanceKey)
  }

  /**
   * Without a location the list is unchanged; with one it is the list with
   * distances attached, sorted stably by `distance || 999`.
   */
  lemma ProcessAmbulancesSpec(ambulances: seq<Ambulance>, userLocation: Option<Coordinates>, distanceKm: DistanceFn)
    ensures userLocation.None? ==> ProcessAmbulances(ambulances, userLocation, distanceKm) == ambulances
    ensures userLocation.Some? ==>
      var r, attached := ProcessAmbulances(ambulances, userLocation, distanceKm), AttachAmbulanceDistances(ambulances, userLocation.value, distanceKm);
      && SortedBy(r, AmbulanceKey)
      && SameKeyClasses(r, attached, AmbulanceKey)
      && multiset(r) == multiset(attached)
  {
    if userLocation.Some? {
      SortByKeyCorrect(AttachAmbulanceDistances(ambulances, userLocation.value, distanceKm), AmbulanceKey);
    }
  }

  /**
   * `processAmbulances` stores its result in the list it reads, so asking
   * again for ambulances ranks an already ranked list: that changes nothing.
   */
  lemma ProcessAmbulancesIdempotent(ambulances: seq<Ambulance>, userLocation: Option<Coordinates>, distanceKm: DistanceFn)
    ensures var once := ProcessAmbulances(ambulances, userLocation, distanceKm);
      ProcessAmbulances(once, userLocation, distanceKm) == once
  {
    if userLocation.Some? {
      var user := userLocation.value;
      var once := ProcessAmbulances(ambulances, userLocation, distanceKm);
      RankedAmbulancesAreFixed(ambulances, user, distanceKm);
      ProcessAmbulancesSpec(ambulances, userLocation, distanceKm);
      assert forall i :: 0 <= i < |once| ==> once[i] in once;
      assert AttachAmbulanceDistances(once, user, distanceKm) == once;
      SortSortedIsIdentity(once, AmbulanceKey);
    }
  }

  /** Attaching the distance again to a ranked ambulance changes nothing. */
  lemma RankedAmbulancesAreFixed(ambulances: seq<Ambulance>, user: Coordinates, distanceKm: DistanceFn)
    ensures forall a :: a in ProcessAmbulances(ambulances, Some(user), distanceKm) ==>
      WithAmbulanceDistance(a, user, distanceKm) == a
  {
    var attached := AttachAmbulanceDistances(ambulances, user, distanceKm);
    var once := ProcessAmbulances(ambulances, Some(user), distanceKm);
    ProcessAmbulancesSpec(ambulances, Some(user), distanceKm);
    forall a | a in once ensures WithAmbulanceDistance(a, user, distanceKm) == a {
      assert a in multiset(attached);
      var j :| 0 <= j < |attached| && attached[j] == a;
      assert a == WithAmbulanceDistance(ambulances[j], user, distanceKm);
    }
  }
}
