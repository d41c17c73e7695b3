/**
 * Worked examples of the ranking on small concrete inputs. The distance
 * function here reads a provider's distance off its latitude, so each record
 * states its own distance.
 */
module Scenarios {
  import opened Wrappers
  import opened Records
  import opened Strings
  import opened Sequences
  import opened StableSort
  import opened Ranking

  function LatitudeAsDistance(user: Coordinates, at: Coordinates): real {
    at.lat
  }

  const Origin: Coordinates := Coordinates(0.0, 0.0)

  function Doc(id: Text, department: Text, rating: real, km: real): Doctor {
    Doctor(id, id, department, rating, Some(Coordinates(km, 0.0)), None, None)
  }

  function Amb(id: Text, km: real): Ambulance {
    Ambulance(id, id, BasicLifeSupport, 4.5, Some(Coordinates(km, 0.0)), None)
  }

  /** `Amb(id, km)` with its distance attached. */
  function Placed(id: Text, km: real): Ambulance {
    Amb(id, km).(distance := Some(km))
  }

  /** Ambulances at 5, 1 and 10 km come out ordered 1, 5, 10 km. */
  lemma AmbulancesByDistance()
    ensures var r := ProcessAmbulances([Amb("a", 5.0), Amb("b", 1.0), Amb("c", 10.0)], Some(Origin), LatitudeAsDistance);
      r == [Placed("b", 1.0), Placed("a", 5.0), Placed("c", 10.0)]
  {
    var x, y, z := Placed("a", 5.0), Placed("b", 1.0), Placed("c", 10.0);
    AttachThree();
    SortThree(x, y, z);
  }

  lemma AttachThree()
    ensures AttachAmbulanceDistances([Amb("a", 5.0), Amb("b", 1.0), Amb("c", 10.0)], Origin, LatitudeAsDistance)
         == [Placed("a", 5.0), Placed("b", 1.0), Placed("c", 10.0)]
  {
  }

  /** Three elements whose keys are middle, lowest, highest. */
  lemma SortThree(x: Ambulance, y: Ambulance, z: Ambulance)
    requires AmbulanceKey(y) < AmbulanceKey(x) < AmbulanceKey(z)
    ensures SortByKey([x, y, z], AmbulanceKey) == [y, x, z]
  {
    assert [x, y, z][1..] == [y, z] && [y, z][1..] == [z] && [z][1..] == [];
    assert SortByKey([z], AmbulanceKey) == [z];
    assert SortByKey([y, z], AmbulanceKey) == [y, z];
    assert Insert(x, [y, z], AmbulanceKey) == [y] + Insert(x, [z], AmbulanceKey) == [y, x, z];
  }

  /** A provider at distance 0 sorts after one at 3 km, because `0 || 999` is 999. */
  lemma ZeroDistanceSortsLast()
    ensures var r := ProcessAmbulances([Amb("here", 0.0), Amb("near", 3.0)], Some(Origin), LatitudeAsDistance);
      r == [Placed("near", 3.0), Placed("here", 0.0)]
  {
    var x, y := Placed("here", 0.0), Placed("near", 3.0);
    var attached := AttachAmbulanceDistances([Amb("here", 0.0), Amb("near", 3.0)], Origin, LatitudeAsDistance);
    assert attached == [x, y];
    assert [x, y][1..] == [y] && [y][1..] == [];
    assert AmbulanceKey(x) == FallbackDistance;
    assert SortByKey([y], AmbulanceKey) == [y];
    assert Insert(x, [y], AmbulanceKey) == [y] + Insert(x, [], AmbulanceKey) == [y, x];
  }

  /**
   * Ratings 4.9, 4.5, 5.0 among the nearest three and a farther 5.0: the
   * third record is the best match and the farther one is not.
   */
  lemma BestMatchAmongNearestThree()
    ensures var r := ProcessDoctors(
        [Doc("d1", "Cardiology", 4.9, 1.0), Doc("d2", "Cardiology", 4.5, 2.0),
         Doc("d3", "Cardiology", 5.0, 3.0), Doc("d4", "Cardiology", 5.0, 4.0)],
        Some(Origin), None, LatitudeAsDistance);
      |r| == 4 && r[2].id == "d3" && r[2].isBestMatch == Some(true)
      && r[0].isBestMatch == Some(false) && r[1].isBestMatch == Some(false) && r[3].isBestMatch == Some(false)
  {
    var ds := [Doc("d1", "Cardiology", 4.9, 1.0), Doc("d2", "Cardiology", 4.5, 2.0),
               Doc("d3", "Cardiology", 5.0, 3.0), Doc("d4", "Cardiology", 5.0, 4.0)];
    var attached := AttachDoctorDistances(ds, Origin, LatitudeAsDistance);
    AlreadyInDistanceOrder(ds, attached);
    SortSortedIsIdentity(attached, DoctorKey);
    FlagsThirdOfFour(attached);
  }

  lemma AlreadyInDistanceOrder(ds: seq<Doctor>, attached: seq<Doctor>)
    requires ds == [Doc("d1", "Cardiology", 4.9, 1.0), Doc("d2", "Cardiology", 4.5, 2.0),
                    Doc("d3", "Cardiology", 5.0, 3.0), Doc("d4", "Cardiology", 5.0, 4.0)]
    requires attached == AttachDoctorDistances(ds, Origin, LatitudeAsDistance)
    ensures SortedBy(attached, DoctorKey)
    ensures forall i :: 0 <= i < 4 ==> attached[i].id == ds[i].id && attached[i].rating == ds[i].rating
  {
    assert forall i :: 0 <= i < 4 ==> DoctorKey(attached[i]) == ds[i].coordinates.value.lat;
  }

  /** Four records rated 4.9, 4.5, 5.0, 5.0 with distinct ids: only the third is flagged. */
  lemma FlagsThirdOfFour(ranked: seq<Doctor>)
    requires |ranked| == 4
    requires ranked[0].rating == 4.9 && ranked[1].rating == 4.5 && ranked[2].rating == 5.0 && ranked[3].rating == 5.0
    requires ranked[2].id == "d3" && ranked[0].id == "d1" && ranked[1].id == "d2" && ranked[3].id == "d4"
    ensures var r := MarkBestMatch(ranked);
      |r| == 4 && r[2].id == "d3" && r[2].isBestMatch == Some(true)
      && r[0].isBestMatch == Some(false) && r[1].isBestMatch == Some(false) && r[3].isBestMatch == Some(false)
  {
    MarkBestMatchSpec(ranked);
    var b :| 0 <= b < 3 && IsFirstHighestRated(ranked[..3], b)
      && forall i :: 0 <= i < 4 ==> MarkBestMatch(ranked)[i] == ranked[i].(isBestMatch := Some(ranked[i].id == ranked[b].id));
    assert IsFirstHighestRated(ranked[..3], 2);
    FirstHighestRatedIsUnique(ranked[..3], b, 2);
  }

  /** Equal ratings: the earlier of the two is flagged. */
  lemma TieGoesToEarliest()
    ensures var r := ProcessDoctors(
        [Doc("d1", "Cardiology", 4.9, 1.0), Doc("d6", "Cardiology", 4.9, 2.0)],
        None, None, LatitudeAsDistance);
      |r| == 2 && r[0].isBestMatch == Some(true) && r[1].isBestMatch == Some(false)
  {
    var ds := [Doc("d1", "Cardiology", 4.9, 1.0), Doc("d6", "Cardiology", 4.9, 2.0)];
    MarkBestMatchSpec(ds);
    var b :| 0 <= b < 2 && IsFirstHighestRated(ds[..2], b)
      && forall i :: 0 <= i < 2 ==> MarkBestMatch(ds)[i] == ds[i].(isBestMatch := Some(ds[i].id == ds[b].id));
    assert IsFirstHighestRated(ds[..2], 0);
    FirstHighestRatedIsUnique(ds[..2], b, 0);
  }

  /** A string without the first character of `t` does not contain `t`. */
  lemma {:induction false} MissingFirstChar(s: seq<char>, t: seq<char>)
    requires t != [] && t[0] !in s
    ensures !Contains(s, t)
    decreases |s|
  {
    if s != [] {
      assert forall c :: c in s[1..] ==> c in s;
      MissingFirstChar(s[1..], t);
      assert s[0] != t[0];
    }
  }

  /** The query "cardio" keeps the Cardiology doctor and drops the Neurology one. */
  lemma CardioFilter()
    ensures FilterByDepartment([Doc("d1", "Cardiology", 4.9, 1.0), Doc("d2", "Neurology", 4.8, 2.0)], Some("cardio"))
         == [Doc("d1", "Cardiology", 4.9, 1.0)]
  {
    var d1, d2 := Doc("d1", "Cardiology", 4.9, 1.0), Doc("d2", "Neurology", 4.8, 2.0);
    LowerCardio();
    CardiologyMatches(d1);
    NeurologyDoesNotMatch(d2);
    assert [d1, d2][1..] == [d2] && [d2][1..] == [];
  }

  lemma LowerCardio()
    ensures ToLower("cardio") == "cardio"
  {
  }

  lemma CardiologyMatches(d: Doctor)
    requires d.department == "Cardiology"
    ensures InDepartment(d, "cardio")
  {
    assert ToLower("Cardiology") == "cardiology";
    assert "cardiology"[..6] == "cardio";
  }

  lemma NeurologyDoesNotMatch(d: Doctor)
    requires d.department == "Neurology"
    ensures !InDepartment(d, "cardio")
  {
    assert ToLower("Neurology") == "neurology";
    MissingFirstChar("neurology", "cardio");
  }

  /** An empty list ranks to an empty list. */
  lemma EmptyStaysEmpty()
    ensures ProcessDoctors([], Some(Origin), Some("cardio"), LatitudeAsDistance) == []
  {
  }
}
