/** `add_missing_members` of main.py: the display names configured in
    MEMBER_NAMES are completed, in place, with "first last" for every member
    of the conversation that has no name yet. */
module Members {
  import opened Types

  /** `f"{profile['first_name']} {profile['last_name']}"`. */
  function FullName(p: Profile): string {
    p.firstName + " " + p.lastName
  }

  /** The ids of the profiles. */
  function Ids(ps: seq<Profile>): set<int> {
    set i | 0 <= i < |ps| :: ps[i].id
  }

  /** The names after the profiles are visited in order: a profile adds its
      full name only when its id has no name yet. */
  function Enriched(names: map<int, string>, ps: seq<Profile>): (r: map<int, string>)
    // configured names are never overwritten
    ensures forall id :: id in names ==> id in r && r[id] == names[id]
    // every member of the conversation ends up with a name, and nobody else
    ensures r.Keys == names.Keys + Ids(ps)
  {
    if ps == [] then names
    else
      var e := Enriched(names, ps[..|ps| - 1]);
      var p := ps[|ps| - 1];
      assert Ids(ps) == Ids(ps[..|ps| - 1]) + {p.id} by {
        assert forall i :: 0 <= i < |ps| - 1 ==> ps[..|ps| - 1][i] == ps[i];
      }
      if p.id in e then e else e[p.id := FullName(p)]
  }

  /** A member without a configured name gets the full name of the first
      profile that carries its id; later profiles with the same id are ignored. */
  lemma {:induction false} EnrichedFirstProfile(names: map<int, string>, ps: seq<Profile>, i: nat)
    requires i < |ps| && ps[i].id !in names
    requires forall j :: 0 <= j < i ==> ps[j].id != ps[i].id
    ensures Enriched(names, ps)[ps[i].id] == FullName(ps[i])
  {
    var init := ps[..|ps| - 1];
    if i == |ps| - 1 {
      assert ps[i].id !in Ids(init) by {
        assert forall j :: 0 <= j < |init| ==> init[j] == ps[j];
      }
    } else {
      assert init[i] == ps[i];
      EnrichedFirstProfile(names, init, i);
    }
  }

  /** Visiting the profiles a second time adds nothing. */
  lemma EnrichedIdempotent(names: map<int, string>, ps: seq<Profile>)
    ensures Enriched(Enriched(names, ps), ps) == Enriched(names, ps)
  {
    var e := Enriched(names, ps);
    var e2 := Enriched(e, ps);
    assert e2.Keys == e.Keys;
  }

  /** MEMBER_NAMES: the display name of each member id. */
  class MemberDirectory {
    var names: map<int, string>

    constructor (names: map<int, string>)
      ensures this.names == names
    {
      this.names := names;
    }

    /** `add_missing_members`: false when messages.getConversationMembers
        raises, which ends the run with the names untouched. */
    method AddMissingMembers(response: MembersResponse) returns (ok: bool)
      modifies this
      ensures ok == response.Members?
      ensures names == if ok then Enriched(old(names), response.profiles) else old(names)
    {
      if response.MembersFailed? {
        return false;
      }
      var profiles := response.profiles;
      for i := 0 to |profiles|
        invariant names == Enriched(old(names), profiles[..i])
      {
        var profile := profiles[i];
        assert profiles[..i + 1][..i] == profiles[..i];
        if profile.id !in names {
          names := names[profile.id := FullName(profile)];
        }
      }
      assert profiles[..|profiles|] == profiles;
      return true;
    }
  }
}
