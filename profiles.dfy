/** Candidate profiles: the validation rules of the profile form, the guards of its
    submit handler, the upsert that stores a submitted profile, and deletion and
    loading in the profile list. Storage is a parameter and a result: the stored
    list before, and the list written back. */
module Profiles {
  import opened JsText

  datatype Location = Location(remote: Option<bool>, place: string)

  datatype Experience = Experience(company: string, position: string, description: string)

  datatype Education = Education(profession: string, institution: string, area: string)

  datatype Social = Social(href: string)

  datatype Language = Language(language: string, proficiency: string)

  /** The personal fields the list logic copies without looking at them. */
  datatype Contact = Contact(title: string, firstName: string, lastName: string, email: string,
                             phone: string, currentJobTitle: string, skills: seq<string>)

  /** A submitted or stored profile. `id` is absent when the key is missing;
      `relocation` and `location.remote` are absent when the form left them unset. */
  datatype Profile = Profile(id: Option<string>, contact: Contact, location: Location,
                             relocation: Option<bool>, experience: seq<Experience>,
                             education: Option<seq<Education>>, socials: seq<Social>,
                             languages: seq<Language>)

  // ---------------------------------------------------------------------------
  // Validation

  /** The messages of `ExperienceSchema` for one entry: each text field needs at
      least 4 UTF-16 code units. */
  function ExperienceIssues(e: Experience): (r: seq<string>)
    ensures "Company is required." in r <==> Utf16Length(e.company) < 4
    ensures "Position is required." in r <==> Utf16Length(e.position) < 4
    ensures "Description is required." in r <==> Utf16Length(e.description) < 4
    ensures |r| <= 3
  {
    (if Utf16Length(e.company) < 4 then ["Company is required."] else []) +
    (if Utf16Length(e.position) < 4 then ["Position is required."] else []) +
    (if Utf16Length(e.description) < 4 then ["Description is required."] else [])
  }

  /** The messages of `EducationSchema` for one entry. */
  function EducationIssues(e: Education): (r: seq<string>)
    ensures "Profession is required." in r <==> Utf16Length(e.profession) < 4
    ensures "Institution is required." in r <==> Utf16Length(e.institution) < 4
    ensures "Area of study is required." in r <==> Utf16Length(e.area) < 4
    ensures |r| <= 3
  {
    (if Utf16Length(e.profession) < 4 then ["Profession is required."] else []) +
    (if Utf16Length(e.institution) < 4 then ["Institution is required."] else []) +
    (if Utf16Length(e.area) < 4 then ["Area of study is required."] else [])
  }

  /** What the form's schema accepts, as far as the list logic depends on it:
      every experience and education entry passes its length rules, and the two
      booleans are set. */
  predicate PassesSchema(p: Profile) {
    (forall i :: 0 <= i < |p.experience| ==> ExperienceIssues(p.experience[i]) == []) &&
    (p.education.Some? ==> forall i :: 0 <= i < |p.education.value| ==> EducationIssues(p.education.value[i]) == []) &&
    p.relocation.Some? && p.location.remote.Some?
  }

  /** A text of fewer than 2 characters has fewer than 4 UTF-16 code units, so it
      always fails the length rule. */
  lemma ShortTextRejected(e: Experience)
    requires |e.company| < 2 || |e.position| < 2 || |e.description| < 2
    ensures ExperienceIssues(e) != []
  {
    if |e.company| < 2 {
      assert "Company is required." in ExperienceIssues(e);
    } else if |e.position| < 2 {
      assert "Position is required." in ExperienceIssues(e);
    } else {
      assert "Description is required." in ExperienceIssues(e);
    }
  }

  // ---------------------------------------------------------------------------
  // Storing a profile

  /** The entry a new profile becomes: a newly generated id that the profile's own `id` key,
      when present, overrides; unset booleans default to false. */
  function NewEntry(profile: Profile, newId: string): Profile {
    profile.(id := Some(profile.id.GetOr(newId)),
             relocation := Some(profile.relocation.GetOr(false)),
             location := profile.location.(remote := Some(profile.location.remote.GetOr(false))))
  }

  /** Replace every stored entry whose id equals the profile's. */
  function ReplaceById(ps: seq<Profile>, profile: Profile): seq<Profile> {
    if ps == [] then []
    else [if ps[0].id == profile.id then profile else ps[0]] + ReplaceById(ps[1..], profile)
  }

  /** `saveProfile(profile)` with the stored list `prev` (absent when nothing is
      stored) and `newId` the id `uuidv4` returns: the list it writes. */
  function SaveProfile(prev: Option<seq<Profile>>, profile: Profile, newId: string): seq<Profile> {
    match prev
    case None => [NewEntry(profile, newId)]
    case Some(ps) =>
      if profile.id.Some? && profile.id.value != "" then ReplaceById(ps, profile)
      else ps + [NewEntry(profile, newId)]
  }

  /** Editing keeps the length and the order: each entry with the profile's id
      becomes the profile, every other entry is untouched. */
  lemma {:induction false} ReplaceByIdSpec(ps: seq<Profile>, profile: Profile)
    ensures |ReplaceById(ps, profile)| == |ps|
    ensures forall i :: 0 <= i < |ps| ==>
      ReplaceById(ps, profile)[i] == (if ps[i].id == profile.id then profile else ps[i])
  {
    if ps != [] {
      ReplaceByIdSpec(ps[1..], profile);
    }
  }

  lemma EditCase(ps: seq<Profile>, profile: Profile, newId: string)
    requires profile.id.Some? && profile.id.value != ""
    ensures var r := SaveProfile(Some(ps), profile, newId);
      |r| == |ps| &&
      (forall i :: 0 <= i < |ps| && ps[i].id == profile.id ==> r[i] == profile) &&
      (forall i :: 0 <= i < |ps| && ps[i].id != profile.id ==> r[i] == ps[i]) &&
      ((forall i :: 0 <= i < |ps| ==> ps[i].id != profile.id) ==> r == ps)
  {
    ReplaceByIdSpec(ps, profile);
  }

  /** Saving the same edit twice stores the same list as saving it once. */
  lemma EditIdempotent(ps: seq<Profile>, profile: Profile, newId: string)
    requires profile.id.Some? && profile.id.value != ""
    ensures SaveProfile(Some(SaveProfile(Some(ps), profile, newId)), profile, newId) == SaveProfile(Some(ps), profile, newId)
  {
    var r := SaveProfile(Some(ps), profile, newId);
    ReplaceByIdSpec(ps, profile);
    ReplaceByIdSpec(r, profile);
  }

  /** Creating appends exactly one entry after the untouched previous ones; it keeps
      the profile's fields, takes the generated id unless the profile has an `id` key,
      and defaults the unset booleans to false. */
  lemma CreateCase(ps: seq<Profile>, profile: Profile, newId: string)
    requires profile.id.None? || profile.id == Some("")
    ensures var r := SaveProfile(Some(ps), profile, newId);
      |r| == |ps| + 1 && r[..|ps|] == ps &&
      r[|ps|].contact == profile.contact && r[|ps|].experience == profile.experience &&
      r[|ps|].education == profile.education && r[|ps|].socials == profile.socials &&
      r[|ps|].languages == profile.languages && r[|ps|].location.place == profile.location.place &&
      r[|ps|].id == (if profile.id.None? then Some(newId) else Some("")) &&
      r[|ps|].relocation == Some(profile.relocation.GetOr(false)) &&
      r[|ps|].location.remote == Some(profile.location.remote.GetOr(false))
  {
    assert (ps + [NewEntry(profile, newId)])[..|ps|] == ps;
  }

  /** With nothing stored, the written list is the one new entry: it keeps the
      profile's fields, takes the profile's own id when it has one (even an empty
      one) and the generated id otherwise, and defaults the unset booleans to false. */
  lemma NoListCase(profile: Profile, newId: string)
    ensures var r := SaveProfile(None, profile, newId);
      |r| == 1 && r[0].id == (if profile.id.Some? then profile.id else Some(newId)) &&
      r[0].contact == profile.contact && r[0].experience == profile.experience &&
      r[0].education == profile.education && r[0].socials == profile.socials &&
      r[0].languages == profile.languages && r[0].location.place == profile.location.place &&
      r[0].relocation == Some(profile.relocation.GetOr(false)) &&
      r[0].location.remote == Some(profile.location.remote.GetOr(false))
  {
  }

  function Ids(ps: seq<Profile>): set<Option<string>> {
    set i | 0 <= i < |ps| :: ps[i].id
  }

  predicate UniqueIds(ps: seq<Profile>) {
    forall i, j :: 0 <= i < j < |ps| ==> ps[i].id != ps[j].id
  }

  /** Creating a profile without an id, with a newly generated id not stored yet, keeps the
      stored ids unique. */
  lemma CreateKeepsIdsUnique(ps: seq<Profile>, profile: Profile, newId: string)
    requires UniqueIds(ps) && profile.id.None? && Some(newId) !in Ids(ps)
    ensures UniqueIds(SaveProfile(Some(ps), profile, newId))
  {
    var r := SaveProfile(Some(ps), profile, newId);
    forall i, j | 0 <= i < j < |r| ensures r[i].id != r[j].id {
      if j == |ps| {
        assert r[i] == ps[i];
        assert ps[i].id in Ids(ps);
      } else {
        assert r[i] == ps[i] && r[j] == ps[j];
      }
    }
  }

  // ---------------------------------------------------------------------------
  // Submitting the form

  datatype Submission =
    | Invalid(profile: Profile)
    | FieldError(field: string, message: string)
    | Saved(profiles: seq<Profile>)

  /** `form.handleSubmit(onSubmit)`: the schema first, then the three list guards in
      order, then `saveProfile`. */
  function Submit(values: Profile, prev: Option<seq<Profile>>, newId: string): Submission {
    if !PassesSchema(values) then Invalid(values)
    else if |values.experience| == 0 then FieldError("experience", "Experience required")
    else if |values.socials| == 0 then FieldError("socials", "Socials required")
    else if |values.languages| == 0 then FieldError("languages", "Languages required")
    else Saved(SaveProfile(prev, values, newId))
  }

  /** The first empty list, in the order experience, socials, languages, is the one
      reported, and nothing is saved; the profile is saved exactly when it is valid
      and none of the three lists is empty. */
  lemma SubmitGuards(values: Profile, prev: Option<seq<Profile>>, newId: string)
    requires PassesSchema(values)
    ensures |values.experience| == 0 ==> Submit(values, prev, newId).FieldError? && Submit(values, prev, newId).field == "experience"
    ensures |values.experience| > 0 && |values.socials| == 0 ==>
      Submit(values, prev, newId).FieldError? && Submit(values, prev, newId).field == "socials"
    ensures |values.experience| > 0 && |values.socials| > 0 && |values.languages| == 0 ==>
      Submit(values, prev, newId).FieldError? && Submit(values, prev, newId).field == "languages"
    ensures Submit(values, prev, newId).Saved? <==>
      |values.experience| > 0 && |values.socials| > 0 && |values.languages| > 0
  {
  }

  /** A saved profile was valid: its booleans were set, so the defaults of
      `saveProfile` never apply to it. */
  lemma SavedHasNoDefaults(values: Profile, prev: Option<seq<Profile>>, newId: string)
    requires Submit(values, prev, newId).Saved?
    ensures NewEntry(values, newId).relocation == values.relocation
    ensures NewEntry(values, newId).location == values.location
  {
  }

  // ---------------------------------------------------------------------------
  // The profile list

  /** The list without the entries whose id is `profileId`, in the original order. */
  function Delete(ps: seq<Profile>, profileId: string): seq<Profile> {
    if ps == [] then []
    else (if ps[0].id != Some(profileId) then [ps[0]] else []) + Delete(ps[1..], profileId)
  }

  function CountId(ps: seq<Profile>, profileId: string): nat {
    if ps == [] then 0 else (if ps[0].id == Some(profileId) then 1 else 0) + CountId(ps[1..], profileId)
  }

  /** `a` is `b` with some entries left out, the rest in their order. */
  predicate Subsequence<T(==)>(a: seq<T>, b: seq<T>)
    decreases |b|
  {
    if a == [] then true
    else if b == [] then false
    else (a[0] == b[0] && Subsequence(a[1..], b[1..])) || Subsequence(a, b[1..])
  }

  /** After a delete no entry has the id, every other entry is kept in its order, and
      the list is shorter by the number of entries that had the id. */
  lemma {:induction false} DeleteSpec(ps: seq<Profile>, profileId: string)
    ensures forall p :: p in Delete(ps, profileId) <==> p in ps && p.id != Some(profileId)
    ensures Subsequence(Delete(ps, profileId), ps)
    ensures |Delete(ps, profileId)| == |ps| - CountId(ps, profileId)
  {
    if ps != [] {
      DeleteSpec(ps[1..], profileId);
      var rest := Delete(ps[1..], profileId);
      if ps[0].id != Some(profileId) {
        assert Delete(ps, profileId) == [ps[0]] + rest;
        assert ([ps[0]] + rest)[1..] == rest;
      } else {
        assert Delete(ps, profileId) == rest;
        SubsequenceSkip(rest, ps[1..], ps[0]);
      }
      assert ps == [ps[0]] + ps[1..];
    }
  }

  lemma {:induction false} SubsequenceSkip<T>(a: seq<T>, b: seq<T>, x: T)
    requires Subsequence(a, b)
    ensures Subsequence(a, [x] + b)
  {
    assert ([x] + b)[1..] == b;
  }

  /** Deleting an id nobody has changes nothing. */
  lemma {:induction false} DeleteAbsent(ps: seq<Profile>, profileId: string)
    requires forall i :: 0 <= i < |ps| ==> ps[i].id != Some(profileId)
    ensures Delete(ps, profileId) == ps
  {
    if ps != [] {
      assert forall i :: 0 <= i < |ps[1..]| ==> ps[1..][i] == ps[i + 1];
      DeleteAbsent(ps[1..], profileId);
      assert ps == [ps[0]] + ps[1..];
    }
  }

  /** Deleting twice is deleting once. */
  lemma {:induction false} DeleteIdempotent(ps: seq<Profile>, profileId: string)
    ensures Delete(Delete(ps, profileId), profileId) == Delete(ps, profileId)
  {
    if ps != [] {
      DeleteIdempotent(ps[1..], profileId);
      var rest := Delete(ps[1..], profileId);
      if ps[0].id != Some(profileId) {
        assert Delete(ps, profileId) == [ps[0]] + rest;
        assert ([ps[0]] + rest)[1..] == rest && ([ps[0]] + rest)[0] == ps[0];
        assert Delete([ps[0]] + rest, profileId) == [ps[0]] + Delete(rest, profileId);
      } else {
        assert Delete(ps, profileId) == rest;
      }
    }
  }

  /** Creating a profile without an id and then deleting the generated id it received
      gives back the stored list, when that id was not stored before. */
  lemma CreateThenDelete(ps: seq<Profile>, profile: Profile, newId: string)
    requires profile.id.None? && Some(newId) !in Ids(ps)
    ensures Delete(SaveProfile(Some(ps), profile, newId), newId) == ps
  {
    assert forall i :: 0 <= i < |ps| ==> ps[i].id in Ids(ps);
    DeleteAbsent(ps, newId);
    DeleteAppend(ps, [NewEntry(profile, newId)], newId);
    assert Delete([NewEntry(profile, newId)], newId) == [];
  }

  lemma {:induction false} DeleteAppend(a: seq<Profile>, b: seq<Profile>, profileId: string)
    ensures Delete(a + b, profileId) == Delete(a, profileId) + Delete(b, profileId)
  {
    if a != [] {
      DeleteAppend(a[1..], b, profileId);
      assert (a + b)[0] == a[0] && (a + b)[1..] == a[1..] + b;
    } else {
      assert a + b == b;
    }
  }

  /** What `browser.storage.local.get("profiles")` yields under the key. */
  datatype Stored = Missing | ArrayValue(items: seq<Profile>) | OtherValue

  /** The load rule of the profile list: only an array replaces the current list. */
  function LoadProfiles(current: seq<Profile>, stored: Stored): (r: seq<Profile>)
    ensures stored.ArrayValue? ==> r == stored.items
    ensures !stored.ArrayValue? ==> r == current
  {
    if stored.ArrayValue? then stored.items else current
  }

  /** `handleDeleteProfile(profileId)`: the list written back and shown, or nothing
      when the stored value has no `filter` (the promise rejects). */
  function HandleDelete(stored: Stored, profileId: string): (r: Option<seq<Profile>>)
    ensures r.Some? <==> stored.ArrayValue?
    ensures r.Some? ==>
      (forall p :: p in r.value <==> p in stored.items && p.id != Some(profileId)) &&
      Subsequence(r.value, stored.items) &&
      |r.value| == |stored.items| - CountId(stored.items, profileId)
  {
    match stored
    case ArrayValue(ps) => DeleteSpec(ps, profileId); Some(Delete(ps, profileId))
    case _ => None
  }
}
