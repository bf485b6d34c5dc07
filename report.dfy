/**
 * The `get_unverified` admin command. Despite its name it lists the student
 * computing ids of the course roster that DO appear, as written, in the
 * label of some member holding neither Staff nor Unverified, sorted.
 */
module Report {
  import opened Wrappers
  import opened Text
  import opened Members
  import opened DuplicateGuard
  import opened Verification
  import opened Ordering

  /** A roster key the command lists. */
  predicate Listed(roster: Roster, members: seq<Member>, key: string)
  {
    key in roster && IsStudentRole(roster[key].role) && Found(Report(key), members)
  }

  /** The inner scan of some student key among `keys` reaches position `i`. */
  predicate Reached(roster: Roster, keys: set<string>, members: seq<Member>, i: nat)
  {
    exists key :: key in keys && key in roster && IsStudentRole(roster[key].role)
                  && i <= FirstHit(Report(key), members)
  }

  /** What the inner scans leave of a member they reach (which members are skipped does not depend on the key). */
  function Touch(m: Member): Member
  {
    Visit(Report(""), m)
  }

  /** The members after the scans for the student keys among `keys`. */
  function AfterReport(roster: Roster, keys: set<string>, members: seq<Member>): seq<Member>
  {
    seq(|members|, i requires 0 <= i < |members| =>
      if Reached(roster, keys, members, i) then Touch(members[i]) else members[i])
  }

  lemma AfterOneMoreKey(roster: Roster, done: set<string>, key: string, members: seq<Member>, current: seq<Member>)
    requires key in roster && IsStudentRole(roster[key].role)
    requires current == AfterReport(roster, done, members)
    ensures SameViews(current, members)
    ensures Found(Report(key), current) == Found(Report(key), members)
    ensures Visited(Report(key), current) == AfterReport(roster, done + {key}, members)
  {
    assert SameViews(current, members);
    ScanSeesViews(Report(key), current, members);
    var next := Visited(Report(key), current);
    var want := AfterReport(roster, done + {key}, members);
    forall i | 0 <= i < |members|
      ensures next[i] == want[i]
    {
      if i <= FirstHit(Report(key), members) {
        assert Reached(roster, done + {key}, members, i);
      } else if Reached(roster, done, members, i) {
        var k :| k in done && k in roster && IsStudentRole(roster[k].role) && i <= FirstHit(Report(k), members);
        assert k in done + {key};
      }
    }
  }

  lemma AfterNonStudentKey(roster: Roster, done: set<string>, key: string, members: seq<Member>)
    requires key in roster && !IsStudentRole(roster[key].role)
    ensures AfterReport(roster, done + {key}, members) == AfterReport(roster, done, members)
  {
    forall i | 0 <= i < |members|
      ensures Reached(roster, done + {key}, members, i) == Reached(roster, done, members, i)
    {
      if Reached(roster, done + {key}, members, i) {
        var k :| k in done + {key} && k in roster && IsStudentRole(roster[k].role) && i <= FirstHit(Report(k), members);
        assert k in done;
      }
    }
  }

  lemma AppendKeepsNoRepeats(ids: seq<string>, key: string)
    requires NoRepeats(ids) && key !in ids
    ensures NoRepeats(ids + [key])
  {
    assert multiset(ids + [key]) == multiset(ids) + multiset{key};
  }

  /**
   * `get_unverified` (UVAuth.py:250-276): nothing when the course or its
   * roster is missing; otherwise the sorted list of listed keys, and the
   * members as the scans leave them.
   */
  method GetUnverified(courses: map<string, Course>, files: map<string, Roster>, guild: Guild)
    returns (ids: Option<seq<string>>, members: seq<Member>)
    ensures RosterOf(courses, files, guild).None? ==> ids.None? && members == guild.members
    ensures RosterOf(courses, files, guild).Some? ==>
              var roster := RosterOf(courses, files, guild).value;
              && ids.Some?
              && StrictlySorted(ids.value)
              && (forall key :: key in ids.value <==> Listed(roster, guild.members, key))
              && members == AfterReport(roster, roster.Keys, guild.members)
  {
    ids, members := None, guild.members;
    var course := LoadCourse(courses, guild.name);
    if course.None? {
      return;
    }
    var found := LoadRoster(files, course.value);
    if found.None? {
      return;
    }
    var roster := found.value;
    var unverifiedIds: seq<string> := [];
    var remaining := roster.Keys;
    ghost var done: set<string> := {};
    assert AfterReport(roster, done, guild.members) == guild.members;
    while remaining != {}
      invariant remaining !! done && remaining + done == roster.Keys
      invariant forall key :: key in unverifiedIds <==> key in done && Listed(roster, guild.members, key)
      invariant NoRepeats(unverifiedIds)
      invariant members == AfterReport(roster, done, guild.members)
      decreases |remaining|
    {
      var key :| key in remaining;
      remaining := remaining - {key};
      if !IsStudentRole(roster[key].role) {
        AfterNonStudentKey(roster, done, key, guild.members);
        done := done + {key};
        continue;
      }
      AfterOneMoreKey(roster, done, key, guild.members, members);
      done := done + {key};
      var hit, scanned := Scan(Report(key), members);
      members := scanned;
      if hit {
        AppendKeepsNoRepeats(unverifiedIds, key);
        unverifiedIds := unverifiedIds + [key];
      }
    }
    if unverifiedIds != [] {
      var sorted := Sort(unverifiedIds);
      assert forall key :: key in sorted <==> key in unverifiedIds by {
        forall key ensures key in sorted <==> key in unverifiedIds {
          assert key in sorted <==> key in multiset(sorted);
          assert key in unverifiedIds <==> key in multiset(unverifiedIds);
        }
      }
      assert NoRepeats(sorted);
      SortedWithoutRepeats(sorted);
      unverifiedIds := sorted;
    }
    ids := Some(unverifiedIds);
  }

  /**
   * What the command really reports: once a non-staff member is verified
   * with an id, that id is listed, because the new nick carries it as
   * written.
   */
  lemma VerifiedIdIsListed(id: string, courses: map<string, Course>, files: map<string, Roster>,
                           uid: nat, guild: Guild)
    requires Step(id, courses, files, uid, guild).0.Success?
    requires Staff !in RequesterOf(guild, uid).value.roles
    ensures var after := Step(id, courses, files, uid, guild).1;
            Listed(RosterOf(courses, files, guild).value, after.members, id)
  {
    var (outcome, after) := Step(id, courses, files, uid, guild);
    var i := FindMember(guild.members, uid).value;
    assert after.members[i].nick == Some(outcome.nick);
    SuffixContains(outcome.nick, id);
    assert Hits(Report(id), after.members[i]);
  }
}
