/**
 * Guild members as the bot sees them: an id, an account name, an optional
 * server nick and the names of the roles held. A guild is its name and its
 * list of members.
 */
module Members {
  import opened Wrappers

  /** The sentinel role: held from joining until a successful verification. */
  const Unverified := "Unverified"
  /** Members with this role are left out of the report of claimed ids. */
  const Staff := "Staff"

  datatype Member = Member(id: nat, name: string, nick: Option<string>, roles: set<string>)

  datatype Guild = Guild(name: string, members: seq<Member>)

  /** The text Discord shows for a member: the nick, or the account name when no nick is set. */
  function Label(m: Member): string
  {
    if m.nick.Some? then m.nick.value else m.name
  }

  /** Two members look the same to every check of the bot: same label, same roles, same id. */
  predicate SameView(a: Member, b: Member)
  {
    Label(a) == Label(b) && a.roles == b.roles && a.id == b.id
  }

  /**
   * The scans' local write `member.nick = member.name` for a member with no
   * nick: afterwards the nick is set, and the member still looks the same.
   */
  function Normalize(m: Member): (r: Member)
    ensures r.nick.Some? && r.nick.value == Label(m)
    ensures SameView(r, m) && r.name == m.name
  {
    if m.nick.None? then m.(nick := Some(m.name)) else m
  }

  /** `guild.get_member(uid)`: the position of the first member with that id, if any. */
  function FindMember(members: seq<Member>, uid: nat): (r: Option<nat>)
    ensures r.Some? ==> r.value < |members| && members[r.value].id == uid
    ensures r.Some? ==> forall j :: 0 <= j < r.value ==> members[j].id != uid
    ensures r.None? ==> forall j :: 0 <= j < |members| ==> members[j].id != uid
  {
    if members == [] then None
    else if members[0].id == uid then Some(0)
    else match FindMember(members[1..], uid)
      case None => None
      case Some(k) => Some(k + 1)
  }

  /** Lookup by id only sees ids: lists with the same ids find the same position. */
  lemma FindMemberByIds(a: seq<Member>, b: seq<Member>, uid: nat)
    requires |a| == |b| && forall i :: 0 <= i < |a| ==> a[i].id == b[i].id
    ensures FindMember(a, uid) == FindMember(b, uid)
  {
  }

  /** `on_member_join`: the newcomer is given the Unverified role. */
  method OnMemberJoin(m: Member) returns (joined: Member)
    ensures Unverified in joined.roles
    ensures joined.roles - {Unverified} == m.roles - {Unverified}
    ensures joined.id == m.id && joined.name == m.name && joined.nick == m.nick
  {
    joined := m.(roles := m.roles + {Unverified});
  }
}
