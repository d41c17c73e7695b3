# Proximity ranking and assistant state updates of a medical-assistant dashboard

This project models the decision logic of `App.tsx` in a browser dashboard
where a user chats with an assistant to find doctors, book appointments and
dispatch ambulances. Three pieces of logic are modelled:

- **`processDoctors(department?)`**: a pipeline over the doctor records with
  three stages. First, an optional case-insensitive department filter. Second,
  when the user's location is known, a distance is attached to every record
  with coordinates, and the list is sorted by `distance || 999`. Third, a
  best-match flag is set on the highest-rated of the first three records,
  matched by id.
- **`processAmbulances()`**: the same distance stage over the ambulance list,
  written back into that list.
- **The assistant's action callbacks** in `handleSendMessage`. They change the
  component state: the current view, the ranked lists, the appointment list
  (a new booking goes in front) and the ambulance request.

The haversine distance (`calculateDistance`) is a parameter of type
`(Coordinates, Coordinates) -> real`, so every result holds for any distance
function. Ratings and distances are `real`.

Modules, one file each:

- `Wrappers`: `Option`, which stands for a value that may be `undefined`.
- `Records`: the records of `types.ts`.
- `Strings`: ASCII `toLowerCase` and `includes`.
- `Sequences`: sorted-by-key, key classes, sub-sequences and element-wise maps.
- `StableSort`: the stable sort that `Array.prototype.sort` performs.
- `Ranking`: `processDoctors` and `processAmbulances`.
- `Dashboard`: the component state as a class. Its methods are the callbacks.
- `Scenarios`: worked examples on small concrete inputs.

Three places where the code does more than a plain reading of its intent:

- `distance || 999` treats a distance of exactly `0` like a missing distance,
  so a provider at the user's own position sorts with the providers that have
  no distance. The model keeps this: `Ranking.SortKey`,
  `Ranking.ZeroDistanceSortsAsFallback` and `Scenarios.ZeroDistanceSortsLast`.
- A record without coordinates is returned as it is (`return doc`). If it
  already carried a distance, it keeps that distance and sorts by it.
- The best match is flagged by id. When several records share the winner's
  id, all of them are flagged. `Ranking.MarkBestMatchSpec` states this
  general behaviour. "Exactly one flagged record" is proved only for lists
  with unique ids (`Ranking.MarkBestMatchUnique`,
  `Ranking.ProcessDoctorsBestMatch`).

Also, `if (department)` treats an empty query like an absent one, so nothing
is filtered. The dispatch callback ignores the pick-up location it is given.

## Model

| member | source | states |
|---|---|---|
| `Strings.LowerChar` | App.tsx:93-94 | an upper-case ASCII letter becomes the matching lower-case letter, every other character is kept, and no upper-case letter remains |
| `Strings.ToLower` | App.tsx:93-94 | the result has the input's length, each character is lower-cased, and no upper-case letter remains |
| `Strings.ContainsIff` | App.tsx:94 | `includes` holds exactly when the query occurs at some position of the department |
| `Strings.Contains` | App.tsx:94 | a string that starts with the query includes it, and no string includes a query longer than itself |
| `StableSort.Insert` | App.tsx:106 | inserting adds exactly one element and keeps all the others |
| `StableSort.SortByKey` | App.tsx:106 | the sorted list is a permutation of the input |
| `StableSort.InsertSorted` | App.tsx:106 | insertion into a list sorted by key keeps it sorted |
| `StableSort.InsertKeyClass` | App.tsx:106 | an inserted element comes before every existing element with the same key |
| `StableSort.SortByKeyCorrect` | App.tsx:106 | the result is in non-decreasing key order, and elements with equal keys keep their input order |
| `StableSort.StableSortIsUnique` | App.tsx:106 | two lists that are both sorted by key and hold the same elements per key in the same order are equal, so any stable sort gives this model's result |
| `StableSort.SortSortedIsIdentity` | App.tsx:134 | sorting a list that is already sorted changes nothing |
| `StableSort.SortEqualKeysIsIdentity` | App.tsx:106 | when every key is the same, for example when no record has a distance, the order is the input order |
| `Ranking.SortKey` | App.tsx:106 | the key "distance, or 999 when falsy": a missing distance and a distance of 0 both give 999, and any other distance is its own key |
| `Ranking.KeepDepartment` | App.tsx:94 | the filter keeps only doctors of the input whose lower-cased department includes the query, and is never longer than the input |
| `Ranking.KeepDepartmentSpec` | App.tsx:94 | the kept doctors are a sub-sequence of the input, and each doctor occurs as often as in the input when its department matches and not at all otherwise |
| `Ranking.FilterByDepartment` | App.tsx:92-95 | the result holds only doctors of the input and is never longer; with a non-empty query every kept doctor's lower-cased department includes the lower-cased query |
| `Ranking.FilterByDepartmentSpec` | App.tsx:91-95 | with no query or an empty query nothing is filtered; otherwise the result keeps exactly the doctors whose lower-cased department includes the lower-cased query, each as often as in the input, in input order, and is never longer than the input |
| `Ranking.WithDoctorDistance` | App.tsx:97-105 | a doctor with coordinates gets the distance from the user to them and nothing else changes; a doctor without coordinates is returned as it is |
| `Ranking.AttachDoctorDistances` | App.tsx:97-105 | each doctor in turn gets its distance from the user, and the length is kept |
| `Ranking.RankDoctors` | App.tsx:96-107 | the distance stage never adds or drops records |
| `Ranking.RankDoctorsSpec` | App.tsx:96-107 | without a location the list is unchanged; with one it is the list with distances attached, in non-decreasing order of the key "distance, or 999 when falsy", a permutation, with equal keys in input order |
| `Ranking.RankedDistances` | App.tsx:96-107 | after the distance stage, every record with coordinates carries its distance from the user |
| `Ranking.RankWithoutPositionsKeepsOrder` | App.tsx:96-107 | with a location, records that have neither coordinates nor a distance all sort under 999 and keep their input order |
| `Ranking.ZeroDistanceSortsAsFallback` | App.tsx:106 | in a ranked list a doctor at distance 0 comes after every doctor at a distance strictly between 0 and 999 |
| `Ranking.ReduceBest` | App.tsx:112-114 | the fold over the candidates returns an index inside the candidate list |
| `Ranking.BestCandidate` | App.tsx:111-114 | `reduce` without an initial value returns one of the candidates |
| `Ranking.ReduceBestSpec` | App.tsx:112-114 | a fold that keeps `prev` unless `current` is strictly better returns the earliest highest-rated candidate |
| `Ranking.BestCandidateSpec` | App.tsx:111-114 | the chosen candidate has the highest rating among the candidates, and no earlier candidate has that rating |
| `Ranking.FirstHighestRatedIsUnique` | App.tsx:112-114 | the tie rule decides the choice: only one index is the earliest highest-rated one |
| `Ranking.EarlierIsLower` | App.tsx:112-114 | every candidate before the chosen one is rated strictly lower |
| `Ranking.ClearBestMatch` | App.tsx:110 | every record keeps all its fields except the flag, which becomes false |
| `Ranking.FlagById` | App.tsx:115-117 | records with the given id get the flag set to true; all other records are unchanged |
| `Ranking.MarkBestMatch` | App.tsx:109-118 | marking never adds or drops records |
| `Ranking.MarkBestMatchSpec` | App.tsx:109-117 | there is an index among the first `min(n, 3)` records that holds the earliest highest rating there, and every record is unchanged except its flag, which is true exactly when its id equals that record's id |
| `Ranking.RankedPermutesUnranked` | App.tsx:96-107 | ignoring distances and flags, the distance stage holds the same records as its input, each as often |
| `Ranking.MarkChangesOnlyFlags` | App.tsx:109-117 | marking keeps every record in place with every field but the flag unchanged, so distances and coordinates are kept |
| `Ranking.MarkBestMatchUnique` | App.tsx:109-117 | with unique ids, every flag is set and exactly one is true, at the earliest highest-rated of the first `min(n, 3)` records |
| `Ranking.ProcessDoctors` | App.tsx:90-120 | the result has exactly as many records as the filter keeps, so an empty filtered list gives an empty result |
| `Ranking.ProcessDoctorsWithoutLocation` | App.tsx:90-119 | without a location, the result is the filtered list in its own order, with each record unchanged apart from its best-match flag, so no distance is attached |
| `Ranking.ProcessDoctorsWithLocation` | App.tsx:96-117 | with a location, the result is sorted by the key "distance, or 999 when falsy"; every record with coordinates carries its distance from the user; apart from the flags it is the ranked filtered list; and, ignoring distances and flags, it holds the same records as the filtered list, each as often |
| `Ranking.KeepDepartmentUnique` | App.tsx:94 | the department filter keeps ids unique |
| `Ranking.ProcessDoctorsKeepsIdsUnique` | App.tsx:90-120 | when the input's ids are unique, so are the result's |
| `Ranking.MarkedListBestMatch` | App.tsx:109-117 | a non-empty marked list whose ids are unique has exactly one flagged record, the earliest highest-rated of its first `min(n, 3)` |
| `Ranking.ProcessDoctorsBestMatch` | App.tsx:109-117 | a non-empty result with unique ids has exactly one flagged record; it is among the first `min(n, 3)` and is the earliest of the highest rated there |
| `Ranking.WithAmbulanceDistance` | App.tsx:125-133 | an ambulance with coordinates gets the distance from the user to it and nothing else changes; one without coordinates is returned as it is |
| `Ranking.AttachAmbulanceDistances` | App.tsx:125-133 | each ambulance in turn gets its distance from the user, and the length is kept |
| `Ranking.ProcessAmbulances` | App.tsx:122-137 | ranking ambulances never adds or drops records |
| `Ranking.ProcessAmbulancesSpec` | App.tsx:122-135 | without a location the list is unchanged; with one it is the list with distances attached, sorted stably by the key "distance, or 999 when falsy", a permutation |
| `Ranking.RankedAmbulancesAreFixed` | App.tsx:125-133 | attaching the distance again to an already ranked ambulance changes nothing |
| `Ranking.ProcessAmbulancesIdempotent` | App.tsx:122-136 | the result is stored back into the list it was computed from, and ranking that list again changes nothing |
| `Dashboard.HospitalOrDefault` | App.tsx:176 | the hospital, or "City General Hospital" when falsy: a non-empty name is kept, and an absent or empty one gives the default; the result is never empty |
| `Dashboard.DispatchedRequest` | App.tsx:172-178 | the request is active and en route, with the fixed estimate and route and the hospital name as above |
| `Dashboard.BookedAppointment` | App.tsx:157-165 | the new appointment is confirmed, its department is "General", and it carries the given id, doctor, date, time and patient |
| `Dashboard.App.constructor` | App.tsx:15-36 | the initial state: home view, no ranked doctors, the one initial appointment and an idle ambulance request; the invariant "with unique doctor ids, at most one shown doctor is the best match" holds |
| `Dashboard.App.OnFindDoctors` | App.tsx:147-150 | shows the doctor view; the ranked list becomes `processDoctors` of the stored doctors and is no longer than that list; with unique doctor ids at most one shown doctor is flagged as the best match |
| `Dashboard.App.OnFindAmbulances` | App.tsx:151-154 | shows the ambulance selection; the ambulance list is replaced by its own ranking |
| `Dashboard.App.OnBookAppointment` | App.tsx:155-167 | shows the success view; the appointments become the new confirmed appointment followed by the old list, unchanged; the ranked lists are untouched, so the invariant is kept |
| `Dashboard.App.OnDispatchAmbulance` | App.tsx:170-179 | shows the tracking view; the request becomes the en-route request with the given or default hospital |
| `Scenarios.AmbulancesByDistance` | App.tsx:122-135 | ambulances at 5, 1 and 10 km come out ordered 1, 5, 10 km, with those distances attached |
| `Scenarios.ZeroDistanceSortsLast` | App.tsx:134 | an ambulance at distance 0 sorts after one at 3 km |
| `Scenarios.BestMatchAmongNearestThree` | App.tsx:109-117 | with ratings 4.9, 4.5 and 5.0 among the nearest three and a farther 5.0, only the third record is flagged |
| `Scenarios.TieGoesToEarliest` | App.tsx:112-114 | of two equally rated doctors, the earlier one is flagged |
| `Scenarios.CardioFilter` | App.tsx:92-95 | the query "cardio" keeps a Cardiology doctor and drops a Neurology one |
| `Scenarios.EmptyStaysEmpty` | App.tsx:109 | an empty doctor list ranks to an empty list |

## Left out

- The haversine body of `calculateDistance` (App.tsx:75-87) is not modelled. It is floating-point trigonometry, so the distance is a function parameter and nothing is assumed about it.
- The location lookup and the random coordinate offsets (App.tsx:42-72) are not modelled. They use a browser API and `Math.random`. The state class instead receives the provider lists and the user's location as they stand once the lookup has finished.
- JavaScript number semantics are not modelled: ratings and distances are exact reals, so `NaN` (which `|| 999` would also map to 999), infinities and rounding are not captured.
- `toLowerCase` is modelled for the ASCII letters only. Unicode case mapping is not captured.
- In `handleSendMessage`, the chat message list, the loading flag and the error message (App.tsx:141-143, 182-190) are not modelled. Neither is the call to the hosted assistant (services/geminiService.ts), whose behaviour depends on the external model. The model covers the callbacks it invokes.
- The `setTimeout` switch to the appointments view 2.5 s after a booking (App.tsx:168) is not modelled. It is a timer effect.
- `Date.now()` ids are not modelled. The appointment id is a method parameter.
- The click handlers (App.tsx:193-212) are not modelled. `handleBookingClick` stores the chosen doctor (`selectedDoctorForBooking`) and opens the booking form. The other three (`handleBookingSubmit`, `handleManualAmbulanceBooking`, `handleEmergency`) compose a message and send it through `handleSendMessage`, whose callbacks are modelled.
- The component state `selectedDoctorForBooking` and `mobileMenuOpen` (App.tsx:28, 39) is not modelled: the first only feeds the booking form and its message, the second only the layout.
- Rendering (App.tsx:215-387 and the components) is not modelled.
- Display-only record fields are not modelled: the doctor's `experience`, `image`, `available`, `nextSlot`, `fees`, `location` and `timings`, the ambulance's `eta`, `fees`, `features` and `image`, and the appointment's `fees`. Ranking carries them along untouched, so they do not affect any property.
- The mock data of constants.ts is not modelled, except for the route `MOCK_ROUTE`, which the dispatch callback installs.
