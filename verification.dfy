/**
 * The verification pipeline of `on_message`: a member sends the bot a
 * computing id by direct message, and for every guild the bot is in the id
 * is checked against that guild's course roster. One attempt per guild
 * reaches exactly one outcome; only a success changes the requester, by
 * setting the derived nick and removing the Unverified role.
 */
module Verification {
  import opened Wrappers
  import opened Text
  import opened Members
  import opened DuplicateGuard
  import opened Nickname

  /** An entry of the course registry (courses.json). */
  datatype Course = Course(rosterPath: string, supportEmail: string)

  /** A roster entry: the student's full name and free-text role. */
  datatype Entry = Entry(name: string, role: string)

  /** A roster: computing id to entry, keys as written in the roster file. */
  type Roster = map<string, Entry>

  /** `load_course`: the registry entry named like the guild, if any. */
  function LoadCourse(courses: map<string, Course>, guildName: string): Option<Course>
  {
    if guildName in courses then Some(courses[guildName]) else None
  }

  /** `load_roster`: the roster file at the course's path, if it exists. */
  function LoadRoster(files: map<string, Roster>, course: Course): Option<Roster>
  {
    if course.rosterPath in files then Some(files[course.rosterPath]) else None
  }

  /** `"student" in role.lower()` */
  predicate IsStudentRole(role: string)
  {
    Contains(Lower(role), "student")
  }

  /** What one attempt in one guild comes to. */
  datatype Outcome =
    /** The guild has no course, or the sender is not a member of it: nothing is said. */
    | Skipped
    /** The course's roster file does not exist: nothing is said. */
    | RosterMissing
    | AlreadyVerified
    | InvalidIdentifier
    | NonStudentRole
    | DuplicateClaim
    /** The nickname step raised IndexError; the rest of the message is not handled. */
    | Aborted
    | Success(nick: string)

  /**
   * The decision for one guild, checks in the order of UVAuth.py:89-160.
   * `id` is the lowered message, `requester` the sender's member entry in
   * this guild and `members` all of the guild's members.
   */
  function Resolve(id: string, course: Option<Course>, roster: Option<Roster>,
                   requester: Option<Member>, members: seq<Member>): Outcome
  {
    if course.None? || requester.None? then Skipped
    else if roster.None? then RosterMissing
    else if Unverified !in requester.value.roles then AlreadyVerified
    else if id !in roster.value then InvalidIdentifier
    else if !IsStudentRole(roster.value[id].role) then NonStudentRole
    else if Found(Claim(id), members) then DuplicateClaim
    else match FormatNick(roster.value[id].name, id)
      case None => Aborted
      case Some(nick) => Success(nick)
  }

  function CourseOf(courses: map<string, Course>, guild: Guild): Option<Course>
  {
    LoadCourse(courses, guild.name)
  }

  function RosterOf(courses: map<string, Course>, files: map<string, Roster>, guild: Guild): Option<Roster>
  {
    match CourseOf(courses, guild)
    case None => None
    case Some(course) => LoadRoster(files, course)
  }

  function RequesterOf(guild: Guild, uid: nat): Option<Member>
  {
    match FindMember(guild.members, uid)
    case None => None
    case Some(i) => Some(guild.members[i])
  }

  /** The requester after `edit(nick=...)` and `remove_roles(unverified)`. */
  function Verified(m: Member, nick: string): Member
  {
    m.(nick := Some(nick), roles := m.roles - {Unverified})
  }

  /**
   * The guild's members after an attempt: the duplicate scan ran for a
   * duplicate claim, an abort and a success, and a success also updates
   * the requester at position `index`.
   */
  function Apply(outcome: Outcome, id: string, index: Option<nat>, members: seq<Member>): seq<Member>
    requires outcome.Success? ==> index.Some? && index.value < |members|
  {
    match outcome
    case DuplicateClaim => Visited(Claim(id), members)
    case Aborted => Visited(Claim(id), members)
    case Success(nick) => Visited(Claim(id), members)[index.value := Verified(members[index.value], nick)]
    case _ => members
  }

  /** One attempt in one guild: its outcome and the guild afterwards. */
  function Step(id: string, courses: map<string, Course>, files: map<string, Roster>,
                uid: nat, guild: Guild): (Outcome, Guild)
  {
    var outcome := Resolve(id, CourseOf(courses, guild), RosterOf(courses, files, guild),
                           RequesterOf(guild, uid), guild.members);
    (outcome, guild.(members := Apply(outcome, id, FindMember(guild.members, uid), guild.members)))
  }

  /** The body of the guild loop of `on_message` (UVAuth.py:87-163) for one guild. */
  method Attempt(id: string, courses: map<string, Course>, files: map<string, Roster>,
                 uid: nat, guild: Guild) returns (outcome: Outcome, after: Guild)
    ensures (outcome, after) == Step(id, courses, files, uid, guild)
  {
    after := guild;
    var course := LoadCourse(courses, guild.name);
    var index := FindMember(guild.members, uid);
    if course.None? || index.None? {
      outcome := Skipped;
      return;
    }
    var roster := LoadRoster(files, course.value);
    if roster.None? {
      outcome := RosterMissing;
      return;
    }
    if Unverified !in guild.members[index.value].roles {
      outcome := AlreadyVerified;
      return;
    }
    if id !in roster.value {
      outcome := InvalidIdentifier;
      return;
    }
    var student := roster.value[id];
    if !IsStudentRole(student.role) {
      outcome := NonStudentRole;
      return;
    }
    var repeated, members := Scan(Claim(id), guild.members);
    after := guild.(members := members);
    if repeated {
      outcome := DuplicateClaim;
      return;
    }
    var nickname := FormatNick(student.name, id);
    if nickname.None? {
      outcome := Aborted;
      return;
    }
    var member := members[index.value];
    member := member.(nick := Some(nickname.value));
    member := member.(roles := member.roles - {Unverified});
    after := guild.(members := members[index.value := member]);
    outcome := Success(nickname.value);
  }

  /**
   * `on_message`: a direct message not sent by the bot is lowered once and
   * tried in every guild in turn; an abort ends the handler.
   */
  method OnMessage(isDirect: bool, fromBot: bool, author: nat, content: string,
                   courses: map<string, Course>, files: map<string, Roster>, guilds: seq<Guild>)
    returns (outcomes: seq<Outcome>, after: seq<Guild>)
    ensures !isDirect || fromBot ==> outcomes == [] && after == guilds
    ensures |after| == |guilds| && |outcomes| <= |guilds|
    ensures isDirect && !fromBot ==> |outcomes| == |guilds| || (outcomes != [] && outcomes[|outcomes| - 1] == Aborted)
    ensures forall i :: 0 <= i < |outcomes| ==>
              (outcomes[i], after[i]) == Step(Lower(content), courses, files, author, guilds[i])
    ensures forall i :: 0 <= i < |outcomes| - 1 ==> !outcomes[i].Aborted?
    ensures forall i :: |outcomes| <= i < |guilds| ==> after[i] == guilds[i]
  {
    outcomes, after := [], guilds;
    if !isDirect || fromBot {
      return;
    }
    var computingId := Lower(content);
    var i := 0;
    while i < |guilds|
      invariant 0 <= i <= |guilds| && |outcomes| == i && |after| == |guilds|
      invariant forall j :: 0 <= j < i ==>
                  (outcomes[j], after[j]) == Step(computingId, courses, files, author, guilds[j])
      invariant forall j :: 0 <= j < i ==> !outcomes[j].Aborted?
      invariant forall j :: i <= j < |guilds| ==> after[j] == guilds[j]
    {
      var outcome, guild := Attempt(computingId, courses, files, author, guilds[i]);
      outcomes := outcomes + [outcome];
      after := after[i := guild];
      if outcome.Aborted? {
        break;
      }
      i := i + 1;
    }
  }

  // ---------------------------------------------------------------------
  // The checks in order

  /** A missing roster is reported before the Unverified role is looked at. */
  lemma RosterMissingFirst(id: string, course: Course, m: Member, members: seq<Member>)
    ensures Resolve(id, Some(course), None, Some(m), members) == RosterMissing
  {
  }

  /** With course and roster present, a member without Unverified gets AlreadyVerified whatever the id. */
  lemma AlreadyVerifiedWhateverId(id: string, course: Course, roster: Roster, m: Member, members: seq<Member>)
    requires Unverified !in m.roles
    ensures Resolve(id, Some(course), Some(roster), Some(m), members) == AlreadyVerified
  {
  }

  /** A member holding Unverified (as every member does after joining) is always checked. */
  lemma UnverifiedIsChecked(id: string, course: Course, roster: Roster, m: Member, members: seq<Member>)
    requires Unverified in m.roles
    ensures Resolve(id, Some(course), Some(roster), Some(m), members) != AlreadyVerified
  {
  }

  /** An id that is not a roster key, as lowered, is rejected whatever the members. */
  lemma InvalidWhenNotOnRoster(content: string, course: Course, roster: Roster, m: Member, members: seq<Member>)
    requires Unverified in m.roles && Lower(content) !in roster
    ensures Resolve(Lower(content), Some(course), Some(roster), Some(m), members) == InvalidIdentifier
  {
  }

  /** Roster keys are looked up as written: a key with an upper-case letter matches no message. */
  lemma UpperCaseKeyUnreachable(content: string, key: string)
    requires Lower(key) != key
    ensures Lower(content) != key
  {
    LowerIdempotent(content);
  }

  /** An entry whose role does not mention "student" in any case is refused. */
  lemma NonStudentRefused(id: string, course: Course, roster: Roster, m: Member, members: seq<Member>)
    requires Unverified in m.roles && id in roster && !IsStudentRole(roster[id].role)
    ensures Resolve(id, Some(course), Some(roster), Some(m), members) == NonStudentRole
  {
  }

  /**
   * Past the roster checks, the attempt is a duplicate claim exactly when a
   * member without Unverified has a label whose lowered form contains the id.
   */
  lemma DuplicateClaimExactly(id: string, course: Course, roster: Roster, m: Member, members: seq<Member>)
    requires Unverified in m.roles && id in roster && IsStudentRole(roster[id].role)
    ensures Resolve(id, Some(course), Some(roster), Some(m), members) == DuplicateClaim
            <==> exists j :: 0 <= j < |members| && Unverified !in members[j].roles
                             && Contains(Lower(Label(members[j])), id)
  {
    if Found(Claim(id), members) {
      var j :| 0 <= j < |members| && Hits(Claim(id), members[j]);
      assert Unverified !in members[j].roles && Contains(Lower(Label(members[j])), id);
    }
  }

  /** The outcome does not depend on the order in which the guild lists its members. */
  lemma ResolveIgnoresMemberOrder(id: string, course: Option<Course>, roster: Option<Roster>,
                                  requester: Option<Member>, a: seq<Member>, b: seq<Member>)
    requires multiset(a) == multiset(b)
    ensures Resolve(id, course, roster, requester, a) == Resolve(id, course, roster, requester, b)
  {
    FoundIgnoresOrder(Claim(id), a, b);
  }

  /** Members still holding Unverified, the requester among them, never count as a claim, whatever their nick. */
  lemma UnverifiedLabelsIgnored(id: string, course: Option<Course>, roster: Option<Roster>,
                                requester: Option<Member>, members: seq<Member>, i: nat, nick: Option<string>)
    requires i < |members| && Unverified in members[i].roles
    ensures Resolve(id, course, roster, requester, members)
            == Resolve(id, course, roster, requester, members[i := members[i].(nick := nick)])
  {
    var p := Claim(id);
    var b := members[i := members[i].(nick := nick)];
    assert forall j :: 0 <= j < |members| ==> (Hits(p, members[j]) <==> Hits(p, b[j]));
    assert Found(p, members) == Found(p, b);
  }

  // ---------------------------------------------------------------------
  // What an attempt changes

  /** Outcomes before the scan leave the guild exactly as it was. */
  lemma EarlyOutcomesChangeNothing(id: string, courses: map<string, Course>, files: map<string, Roster>,
                                   uid: nat, guild: Guild)
    requires Step(id, courses, files, uid, guild).0 in
               {Skipped, RosterMissing, AlreadyVerified, InvalidIdentifier, NonStudentRole}
    ensures Step(id, courses, files, uid, guild).1 == guild
  {
  }

  /**
   * On success the requester gets the derived nick and loses exactly the
   * Unverified role; every other member keeps its roles, id, name and
   * label, and its nick changes only from none to its account name.
   */
  lemma SuccessChangesOnlyRequester(id: string, courses: map<string, Course>, files: map<string, Roster>,
                                    uid: nat, guild: Guild)
    requires Step(id, courses, files, uid, guild).0.Success?
    ensures FindMember(guild.members, uid).Some?
    ensures var (outcome, after) := Step(id, courses, files, uid, guild);
            var i := FindMember(guild.members, uid).value;
            && after.name == guild.name
            && |after.members| == |guild.members|
            && Unverified in guild.members[i].roles
            && after.members[i].roles == guild.members[i].roles - {Unverified}
            && after.members[i].nick == Some(outcome.nick)
            && after.members[i].id == guild.members[i].id && after.members[i].name == guild.members[i].name
            && EndsWith(outcome.nick, Tag(id))
            && forall j :: 0 <= j < |guild.members| && j != i ==>
                 && SameView(after.members[j], guild.members[j])
                 && after.members[j].name == guild.members[j].name
                 && (after.members[j].nick == guild.members[j].nick || guild.members[j].nick.None?)
  {
  }

  /** Roles change in one way only: a success removes Unverified from the requester. */
  lemma OnlySuccessClearsUnverified(id: string, courses: map<string, Course>, files: map<string, Roster>,
                                    uid: nat, guild: Guild)
    ensures var (outcome, after) := Step(id, courses, files, uid, guild);
            && |after.members| == |guild.members|
            && forall j :: 0 <= j < |guild.members| ==>
                 || after.members[j].roles == guild.members[j].roles
                 || (&& outcome.Success?
                     && FindMember(guild.members, uid) == Some(j)
                     && after.members[j].roles == guild.members[j].roles - {Unverified})
  {
    var (outcome, after) := Step(id, courses, files, uid, guild);
    VisitedSameViews(Claim(id), guild.members);
  }

  /** After a success, any further attempt by the same member, with any id, is AlreadyVerified and changes nothing. */
  lemma RepeatAfterSuccess(id: string, id2: string, courses: map<string, Course>, files: map<string, Roster>,
                           uid: nat, guild: Guild)
    requires Step(id, courses, files, uid, guild).0.Success?
    ensures var after := Step(id, courses, files, uid, guild).1;
            Step(id2, courses, files, uid, after) == (AlreadyVerified, after)
  {
    var after := Step(id, courses, files, uid, guild).1;
    VisitedSameViews(Claim(id), guild.members);
    FindMemberByIds(after.members, guild.members, uid);
  }

  /**
   * After a member is verified with an id, another member still holding
   * Unverified who sends the same id, in any letter case, gets DuplicateClaim:
   * the verified member's new nick carries the id.
   */
  lemma NoSecondClaim(content: string, content2: string, courses: map<string, Course>,
                      files: map<string, Roster>, a: nat, b: nat, guild: Guild)
    requires Lower(content2) == Lower(content)
    requires Step(Lower(content), courses, files, a, guild).0.Success?
    requires a != b && RequesterOf(guild, b).Some? && Unverified in RequesterOf(guild, b).value.roles
    ensures var after := Step(Lower(content), courses, files, a, guild).1;
            Step(Lower(content2), courses, files, b, after).0 == DuplicateClaim
  {
    var id := Lower(content);
    var (outcome, after) := Step(id, courses, files, a, guild);
    var ia := FindMember(guild.members, a).value;
    var ib := FindMember(guild.members, b).value;
    VisitedSameViews(Claim(id), guild.members);
    FindMemberByIds(after.members, guild.members, b);
    assert ia != ib;
    assert after.members[ib] == guild.members[ib];
    LowerIdempotent(content);
    LoweredSuffixContains(outcome.nick, id);
    assert Hits(Claim(id), after.members[ia]);
  }

  // ---------------------------------------------------------------------
  // Worked examples

  /** "AB3EF" against the roster {"ab3ef": Jane Doe, Student} verifies a fresh member as "Jane Doe (ab3ef)". */
  lemma ExampleSuccess(course: Course, m: Member)
    requires Unverified in m.roles
    ensures var roster := map["ab3ef" := Entry("Jane Doe", "Student")];
            Resolve(Lower("AB3EF"), Some(course), Some(roster), Some(m), [m]) == Success("Jane Doe (ab3ef)")
  {
    assert Lower("AB3EF") == "ab3ef";
    assert Lower("Student") == "student";
    assert OccursAt("student", "student", 0);
    FormatNickJaneDoe();
  }

  /** Against the same roster, "zz9" is an invalid identifier and leaves the member as it was. */
  lemma ExampleInvalid(course: Course, m: Member)
    requires Unverified in m.roles
    ensures var roster := map["ab3ef" := Entry("Jane Doe", "Student")];
            Resolve(Lower("zz9"), Some(course), Some(roster), Some(m), [m]) == InvalidIdentifier
  {
    assert Lower("zz9") == "zz9";
  }

  /** An entry with role "TA" is refused as a non-student role. */
  lemma ExampleTeachingAssistant(course: Course, m: Member)
    requires Unverified in m.roles
    ensures var roster := map["ta1" := Entry("Some Assistant", "TA")];
            Resolve(Lower("ta1"), Some(course), Some(roster), Some(m), [m]) == NonStudentRole
  {
    assert Lower("ta1") == "ta1";
    assert Lower("TA") == "ta";
  }
}
