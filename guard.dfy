/**
 * The scan over a guild's members that both `on_message` (the duplicate
 * guard) and `get_unverified` run: skip some members, give every visited
 * member without a nick its account name as nick, and stop at the first
 * member whose nick contains the id.
 */
module DuplicateGuard {
  import opened Wrappers
  import opened Text
  import opened Members

  /** What a scan looks for. */
  datatype Probe =
    /** `on_message`: the lowered computing id, in the lowered nick of a member without Unverified. */
    | Claim(id: string)
    /** `get_unverified`: a roster key, in the nick as written of a member with neither Staff nor Unverified. */
    | Report(key: string)

  function Needle(p: Probe): string
  {
    match p
    case Claim(id) => id
    case Report(key) => key
  }

  /** Members the scan passes over with `continue`. */
  predicate Skips(p: Probe, m: Member)
  {
    match p
    case Claim(_) => Unverified in m.roles
    case Report(_) => Staff in m.roles || Unverified in m.roles
  }

  /** The nick as the probe compares it: lowered for a claim, as written for a report. */
  function Folded(p: Probe, nick: string): string
  {
    if p.Claim? then Lower(nick) else nick
  }

  /** The `computing_id in member.nick.lower()` (or `comp_id in member.nick`) test on one nick. */
  predicate Matches(p: Probe, nick: string)
  {
    Contains(Folded(p, nick), Needle(p))
  }

  /** The member is not skipped and its label contains the id. */
  predicate Hits(p: Probe, m: Member)
  {
    !Skips(p, m) && Matches(p, Label(m))
  }

  /** Some member is hit. */
  predicate Found(p: Probe, members: seq<Member>)
  {
    exists i :: 0 <= i < |members| && Hits(p, members[i])
  }

  /** What the scan leaves of a member it reaches. */
  function Visit(p: Probe, m: Member): Member
  {
    if Skips(p, m) then m else Normalize(m)
  }

  /** Position of the first member hit, or the number of members when none is. */
  function FirstHit(p: Probe, members: seq<Member>): (k: nat)
    ensures k <= |members|
    ensures forall j :: 0 <= j < k ==> !Hits(p, members[j])
    ensures k < |members| ==> Hits(p, members[k])
  {
    if members == [] then 0
    else if Hits(p, members[0]) then 0
    else 1 + FirstHit(p, members[1..])
  }

  /** The members after a scan: those up to and including the first hit are visited, the rest untouched. */
  function Visited(p: Probe, members: seq<Member>): seq<Member>
  {
    seq(|members|, i requires 0 <= i < |members| =>
      if i <= FirstHit(p, members) then Visit(p, members[i]) else members[i])
  }

  /** The scanned members agree with `Visited` once the scan has passed position `last`. */
  lemma VisitedUpTo(p: Probe, members: seq<Member>, scanned: seq<Member>, last: nat)
    requires last == FirstHit(p, members)
    requires |scanned| == |members|
    requires forall j :: 0 <= j < |members| ==>
               scanned[j] == if j <= last then Visit(p, members[j]) else members[j]
    ensures scanned == Visited(p, members)
  {
  }

  /**
   * The loop with the `id_repeated` flag and the `break`
   * (UVAuth.py:129-138, and UVAuth.py:266-273 for one roster key).
   */
  method Scan(p: Probe, members: seq<Member>) returns (found: bool, scanned: seq<Member>)
    ensures found == Found(p, members)
    ensures scanned == Visited(p, members)
  {
    found := false;
    scanned := members;
    var i := 0;
    while i < |scanned|
      invariant 0 <= i <= |scanned| == |members|
      invariant i <= FirstHit(p, members)
      invariant forall j :: 0 <= j < |members| ==>
                  scanned[j] == if j < i then Visit(p, members[j]) else members[j]
    {
      var member := scanned[i];
      if !Skips(p, member) {
        if member.nick.None? {
          member := member.(nick := Some(member.name));
          scanned := scanned[i := member];
        }
        assert member == Visit(p, members[i]);
        if Matches(p, member.nick.value) {
          assert Hits(p, members[i]);
          found := true;
          VisitedUpTo(p, members, scanned, i);
          return;
        }
      }
      assert !Hits(p, members[i]);
      i := i + 1;
    }
    VisitedUpTo(p, members, scanned, |members|);
  }

  /** Whether a hit exists does not depend on the order of the members. */
  lemma FoundIgnoresOrder(p: Probe, a: seq<Member>, b: seq<Member>)
    requires multiset(a) == multiset(b)
    ensures Found(p, a) == Found(p, b)
  {
    if Found(p, a) {
      var i :| 0 <= i < |a| && Hits(p, a[i]);
      assert a[i] in multiset(b);
      var j :| 0 <= j < |b| && b[j] == a[i];
    }
    if Found(p, b) {
      var j :| 0 <= j < |b| && Hits(p, b[j]);
      assert b[j] in multiset(a);
      var i :| 0 <= i < |a| && a[i] == b[j];
    }
  }

  /** Pointwise the same view. */
  predicate SameViews(a: seq<Member>, b: seq<Member>)
  {
    |a| == |b| && forall i :: 0 <= i < |a| ==> SameView(a[i], b[i])
  }

  /** A scan only fills in nicks: every member still looks as it did. */
  lemma VisitedSameViews(p: Probe, members: seq<Member>)
    ensures SameViews(Visited(p, members), members)
  {
  }

  /** Scans see members only through their views. */
  lemma ScanSeesViews(p: Probe, a: seq<Member>, b: seq<Member>)
    requires SameViews(a, b)
    ensures Found(p, a) == Found(p, b)
    ensures FirstHit(p, a) == FirstHit(p, b)
  {
    assert forall i :: 0 <= i < |a| ==> (Hits(p, a[i]) <==> Hits(p, b[i]));
  }

  /** A second scan on the result of the first changes nothing more. */
  lemma VisitedIdempotent(p: Probe, members: seq<Member>)
    ensures Visited(p, Visited(p, members)) == Visited(p, members)
  {
    VisitedSameViews(p, members);
    ScanSeesViews(p, Visited(p, members), members);
  }
}
