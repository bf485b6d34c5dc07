# UVAuth in Dafny

UVAuth is a Discord bot that verifies students of a university course. A
member who joins a course server is given the `Unverified` role. They then
send the bot their computing id by direct message. For every server the bot
is in, the bot checks that id against the server's course roster:

- the id must be a roster key;
- the entry's role must mention "student";
- no verified member may already carry the id in their nick.

On success the member gets a nick of the form `Name (id)`, shortened to fit
Discord's 32-character limit, and loses `Unverified`. Separately, reacting
with one of six hearts in the `pronouns` channel grants a pronoun role. The
admin command `get_unverified` reports roster ids against the members'
nicks.

The model works on values. A member is an id, an account name, an optional
nick and a set of role names. A guild is a name and a sequence of members.
The course registry and the roster files are maps passed in as parameters.
Each handler is a method that returns the members as it leaves them.

| file | module | content |
|---|---|---|
| `text.dfy` | `Wrappers`, `Text` | `Option`, ASCII lower-casing, substring and suffix tests, Python's `str.split()[0]` |
| `ordering.dfy` | `Ordering` | Python's string order, insertion sort, sortedness lemmas |
| `members.dfy` | `Members` | members, guilds, labels, lookup by id, `on_member_join` |
| `guard.dfy` | `DuplicateGuard` | the member scan shared by the duplicate guard and the report |
| `nickname.dfy` | `Nickname` | the three-step nickname cascade |
| `verification.dfy` | `Verification` | `load_course`, `load_roster`, the per-guild decision, `on_message` |
| `pronouns.dfy` | `Pronouns` | the `PRONOUNS` table and the two reaction handlers |
| `report.dfy` | `Report` | `get_unverified` |

### Design

- **Specification and implementation.** Each per-guild attempt is specified
  by the function `Verification.Step`. `Step` is the decision
  `Verification.Resolve` followed by its effect on the members. The method
  `Verification.Attempt` follows the early-`continue` structure of the
  handler and is proved equal to `Step`. The lemmas about the pipeline are
  stated over `Resolve` and `Step`.
- **The shared scan.** The duplicate guard (UVAuth.py:129-138) and the inner
  loop of `get_unverified` (UVAuth.py:266-273) are the same loop with a
  different skip test and comparison. Both are `DuplicateGuard.Scan`, with
  a `Probe` argument that selects one or the other.
- **The nick write inside the scan.** Both loops write `member.nick =
  member.name` into members without a nick. The scan keeps this write.
  `DuplicateGuard.Visited` describes the members afterwards. The lemmas
  show the write changes nothing any check can observe.
- **The IndexError.** When the full nick is too long and the roster name
  holds no word, `split()[0]` raises `IndexError`. This ends the handler.
  It is modelled as `FormatNick` returning `None`, the outcome `Aborted`,
  and `OnMessage` stopping its loop over guilds.

### Where the code and its documentation differ (the model follows the code)

- The message is lowered, but roster keys are looked up exactly as written.
  A roster key with an upper-case letter can never be matched
  (`Verification.UpperCaseKeyUnreachable`).
- `get_unverified` is described as listing the students not yet verified.
  The code lists the student ids that ARE found, case-sensitively, in the
  nick of some member holding neither `Staff` nor `Unverified`
  (`Report.GetUnverified`, `Report.VerifiedIdIsListed`).
- The name "Alexander Wellington" with id "abc9xy" gives a nick of 29
  characters. It fits at the first step of the cascade, so it is not an
  example of shortening.

## Model

| member | source | states |
|---|---|---|
| `Text.LowerIdempotent` | UVAuth.py:84 | lowering an already lowered message changes nothing, so the lowered id is its own lower-case form |
| `Text.LoweredSuffixContains` | UVAuth.py:136 | a nick ending in " (id)", with id in lower case, still contains id once lowered |
| `Text.SuffixContains` | UVAuth.py:271 | a nick ending in " (id)" contains id as written |
| `Text.FirstWord` | UVAuth.py:158 | `split()[0]`: none exactly when the name is all whitespace; otherwise a non-empty run without whitespace, preceded only by whitespace |
| `Text.FirstWordUnique` | UVAuth.py:158 | the first word of a string is unique, so the nickname step is determined by the name |
| `Ordering.BelowIrreflexive` | UVAuth.py:276 | Python's string order is irreflexive |
| `Ordering.BelowTransitive` | UVAuth.py:276 | Python's string order is transitive |
| `Ordering.BelowTotal` | UVAuth.py:276 | any two different strings are ordered one way or the other |
| `Ordering.Insert` | UVAuth.py:276 | inserting into a sorted list keeps it sorted and adds exactly that one element |
| `Ordering.Sort` | UVAuth.py:276 | `list.sort()`: the result is sorted and a permutation of the input |
| `Ordering.SortedUnique` | UVAuth.py:276 | two sorted permutations of the same list are equal, so the sorted report is fully determined |
| `Ordering.SortedWithoutRepeats` | UVAuth.py:275-276 | a sorted list without repeats is strictly increasing |
| `Members.Normalize` | UVAuth.py:134-135 | giving a member without a nick its account name as nick sets the nick, and keeps the label, roles and id |
| `Members.FindMember` | UVAuth.py:88 | `get_member`: the position of the first member with that id, or none exactly when no member has it |
| `Members.FindMemberByIds` | UVAuth.py:88 | lookup depends only on the members' ids |
| `Members.OnMemberJoin` | UVAuth.py:52-61 | a newcomer holds Unverified afterwards, and keeps every other role, name and nick |
| `DuplicateGuard.FirstHit` | UVAuth.py:131-138 | the position where the scan breaks: no earlier member is hit, and the member there is hit |
| `DuplicateGuard.Scan` | UVAuth.py:129-138 | `id_repeated` is true exactly when some non-skipped member's label contains the id; the members up to the break are given nicks, the rest are untouched (the same loop is UVAuth.py:266-273 for one roster key) |
| `DuplicateGuard.FoundIgnoresOrder` | UVAuth.py:131 | whether some member is hit does not depend on the order of the members |
| `DuplicateGuard.VisitedSameViews` | UVAuth.py:134-135 | after a scan every member has the same label, roles and id as before |
| `DuplicateGuard.ScanSeesViews` | UVAuth.py:131-138 | two member lists that look alike pointwise give the same hit and the same break position |
| `DuplicateGuard.VisitedIdempotent` | UVAuth.py:129-138 | scanning again after a scan changes nothing more |
| `Nickname.FormatNick` | UVAuth.py:156-160 | the nick always ends in " (id)"; the full form is used when it fits in 32 characters; none (the IndexError) exactly when it does not fit and the name has no word |
| `Nickname.FormatNickCascade` | UVAuth.py:157-160 | when the full form is too long: the first word plus " (id)" if that fits, otherwise that word's first letter plus " (id)" |
| `Nickname.FormatNickFits` | UVAuth.py:156-160 | for an id of at most 28 characters and a name with a word, the nick exists and fits in 32 characters |
| `Nickname.FormatNickJaneDoe` | UVAuth.py:156 | the roster entry "Jane Doe" with id "ab3ef" becomes "Jane Doe (ab3ef)" |
| `Verification.Attempt` | UVAuth.py:87-163 | one guild's attempt, with early returns in source order, gives exactly the outcome and guild of the specification `Step` |
| `Verification.OnMessage` | UVAuth.py:68-163 | a channel message, or one from the bot, changes nothing; otherwise every guild in turn gets the outcome and state of `Step` on the lowered content, and only an abort stops the loop early |
| `Verification.RosterMissingFirst` | UVAuth.py:93-96 | a missing roster file is reported before the Unverified role is looked at |
| `Verification.AlreadyVerifiedWhateverId` | UVAuth.py:98-102 | a member without Unverified is told they are already verified, whatever id was sent |
| `Verification.UnverifiedIsChecked` | UVAuth.py:99 | a member holding Unverified is never told they are already verified |
| `Verification.InvalidWhenNotOnRoster` | UVAuth.py:106-116 | a lowered message that is not a roster key is an invalid identifier, whatever the members |
| `Verification.UpperCaseKeyUnreachable` | UVAuth.py:84-106 | a roster key containing an upper-case letter never equals a lowered message |
| `Verification.NonStudentRefused` | UVAuth.py:118-127 | a roster entry whose role does not contain "student" in any letter case is refused |
| `Verification.DuplicateClaimExactly` | UVAuth.py:129-150 | past the roster checks, the attempt is a duplicate claim exactly when some member without Unverified has a lowered label containing the id |
| `Verification.ResolveIgnoresMemberOrder` | UVAuth.py:131 | the outcome does not depend on the order in which the guild lists its members |
| `Verification.UnverifiedLabelsIgnored` | UVAuth.py:132-133 | the nick of a member still holding Unverified, the requester included, never affects the outcome |
| `Verification.EarlyOutcomesChangeNothing` | UVAuth.py:89-127 | every outcome decided before the scan leaves the guild exactly as it was |
| `Verification.SuccessChangesOnlyRequester` | UVAuth.py:156-163 | on success the requester gets the nick ending in " (id)" and loses exactly Unverified; every other member keeps roles, id, name and label, and its nick changes only from none |
| `Verification.OnlySuccessClearsUnverified` | UVAuth.py:163 | roles change only on success, and then only the requester loses Unverified |
| `Verification.RepeatAfterSuccess` | UVAuth.py:98-102 | after a success, a further attempt by the same member with any id is already verified and changes nothing |
| `Verification.NoSecondClaim` | UVAuth.py:129-150 | after a member is verified with an id, another unverified member sending the same id in any letter case gets a duplicate claim |
| `Verification.ExampleSuccess` | UVAuth.py:84-160 | "AB3EF" against roster {"ab3ef": Jane Doe, Student} verifies a fresh member as "Jane Doe (ab3ef)" |
| `Verification.ExampleInvalid` | UVAuth.py:106 | "zz9" against the same roster is an invalid identifier |
| `Verification.ExampleTeachingAssistant` | UVAuth.py:120 | an entry with role "TA" is refused as a non-student role |
| `Pronouns.TableKeys` | UVAuth.py:13-20 | the table has exactly the six heart symbols as keys |
| `Pronouns.TableInitials` | UVAuth.py:13-20 | each symbol's role, and the letter it starts with |
| `Pronouns.TableInjective` | UVAuth.py:13-20 | different symbols map to different roles |
| `Pronouns.TableShape` | UVAuth.py:13-20 | six symbols, six different roles, and none of them is Unverified or Staff |
| `Pronouns.OnReactionAdd` | UVAuth.py:183-196 | outside the pronouns channel nothing happens; a known symbol adds exactly its role; an unknown one is retracted and roles stay; Unverified and Staff are never affected |
| `Pronouns.OnReactionRemove` | UVAuth.py:209-218 | in the pronouns channel a known symbol removes exactly its role; anything else changes nothing; Unverified and Staff are never affected |
| `Pronouns.RemoveUndoesAdd` | UVAuth.py:190-218 | removing a reaction undoes adding it, for a role not held before, and leaves the other symbols' roles alone |
| `Report.AfterOneMoreKey` | UVAuth.py:263-273 | scanning for one more student key turns the members left by the previous keys into those left by all of them |
| `Report.AfterNonStudentKey` | UVAuth.py:264 | a non-student key is skipped without touching the members |
| `Report.GetUnverified` | UVAuth.py:250-276 | with no course or roster, nothing is reported and nothing changes; otherwise a strictly increasing list holding exactly the student keys found as written in the nick of a member without Staff or Unverified, and the members as the scans leave them |
| `Report.VerifiedIdIsListed` | UVAuth.py:156-163 | after a non-staff member is verified with an id, the report lists that id |

## Left out

- Discord itself is not modelled: the gateway, events, the async runtime and
  the messages sent back to users. Outcomes stand for the replies.
  `process_commands` and the command prefix are left out too.
- Logging (`log`, `datetime.now`) and `on_ready` only print, so they are not
  modelled.
- The Admin-only commands `say`, `react` and `ping` send text only. The
  `has_role("Admin")` check on every command is left out.
- Concurrency is not modelled: handlers run one at a time. Two members who
  send the same id at the same moment could both pass the duplicate check
  between their awaits.
- `str.lower()` is modelled for ASCII letters only. Unicode case mapping is
  not modelled.
- Reading `courses.json` and the roster files is modelled as lookups in maps
  given as parameters. Malformed JSON, a missing `roster_path`, `name` or
  `role` key, and a missing `courses.json` (all exceptions in the code) are
  not modelled.
- `discord.utils.get` finding no role of the given name (it returns None) is
  not modelled. Every guild is assumed to have the Unverified, Staff and
  pronoun roles.
- Pronouns.OnReactionAdd and Pronouns.OnReactionRemove take the member and the
  channel name directly. Looking them up from the payload (`get_guild`,
  `get_channel`, `get_member`, `fetch_roles`, `fetch_message`) is not
  modelled, nor is a member not found.
- Report.GetUnverified does not state the order in which `roster.keys()`
  visits the keys. It proves the result and the final members are the same
  for any order.
- Discord objects are mutable and aliased. The model passes member values and
  returns updated copies, so sharing between guilds is not captured.
- Discord's own check of nick length is not modelled. A nick still longer
  than 32 characters after the cascade is kept as computed.
