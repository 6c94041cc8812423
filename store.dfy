/** The relational tables the backend services read and write, held as the
    fields of one `Db` object. A row's id is its position in its table, and
    rows are appended in creation order, so "newest first" is "highest id
    first". Link tables are sets, since their primary key is the pair
    (userId, skillId). */
module Store {
  import opened Common

  type UserId = nat
  type SkillId = nat

  datatype AccountStatus = Active | Inactive

  datatype SwapStatus = Pending | Accepted | Rejected

  datatype User = User(
    name: string,
    email: string,
    profilePic: string,
    phone: Option<string>,
    location: Option<string>,
    profilePhoto: Option<string>,
    availability: seq<string>,
    password: Option<string>,  // the stored hash; None for accounts created without one
    role: string,
    status: AccountStatus,
    isPublic: bool)

  /** A row of `userOfferedSkill` or `userWantedSkill`. */
  datatype Link = Link(userId: UserId, skillId: SkillId)

  /** A row of `otps`; `expiry` is in milliseconds since the epoch. */
  datatype Otp = Otp(userId: UserId, email: string, value: int, reason: string, expiry: int)

  datatype SwapRequest = SwapRequest(
    requesterId: UserId,
    responderId: UserId,
    requesterSkillId: SkillId,
    responderSkillId: SkillId,
    message: string,
    status: SwapStatus)

  /** A row of `swapFeedback`. */
  datatype Feedback = Feedback(reviewerId: UserId, revieweeId: UserId, rating: int, text: string)

  /** An email the services ask the mail service to send. Delivery is not
      modelled; the model only records that it was requested. */
  datatype Mail =
    | VerifyMail(to: string, code: string, name: string)
    | ResetMail(to: string, code: string, name: string)

  /** The message of the database client's error for a duplicate key. */
  const UniqueViolation := "Unique constraint failed"

  /** The message of the database client's error for an update whose row
      does not exist. */
  const RecordNotFound := "Record to update not found."

  // ------------------------------------------------------------ integrity rules

  predicate EmailsUnique(users: seq<User>) {
    forall i, j :: 0 <= i < j < |users| ==> users[i].email != users[j].email
  }

  predicate LinksValid(links: set<Link>, users: seq<User>, skills: seq<string>) {
    forall l :: l in links ==> l.userId < |users| && l.skillId < |skills|
  }

  predicate OtpsValid(otps: seq<Otp>, users: seq<User>) {
    forall k :: 0 <= k < |otps| ==> otps[k].userId < |users|
  }

  predicate SwapsValid(swaps: seq<SwapRequest>, users: seq<User>, skills: seq<string>) {
    forall k :: 0 <= k < |swaps| ==>
      swaps[k].requesterId < |users| && swaps[k].responderId < |users|
      && swaps[k].requesterSkillId < |skills| && swaps[k].responderSkillId < |skills|
  }

  predicate FeedbackValid(feedback: seq<Feedback>, users: seq<User>) {
    forall k :: 0 <= k < |feedback| ==>
      feedback[k].reviewerId < |users| && feedback[k].revieweeId < |users|
  }

  predicate TablesValid(users: seq<User>, skills: seq<string>, offered: set<Link>, wanted: set<Link>,
                       otps: seq<Otp>, swaps: seq<SwapRequest>, feedback: seq<Feedback>) {
    && EmailsUnique(users)
    && NoDuplicates(skills)
    && LinksValid(offered, users, skills)
    && LinksValid(wanted, users, skills)
    && OtpsValid(otps, users)
    && SwapsValid(swaps, users, skills)
    && FeedbackValid(feedback, users)
  }

  class Db {
    var users: seq<User>
    var skills: seq<string>
    var offered: set<Link>
    var wanted: set<Link>
    var otps: seq<Otp>
    var swaps: seq<SwapRequest>
    var feedback: seq<Feedback>
    ghost var outbox: seq<Mail>

    /** The unique and foreign-key constraints of the schema. */
    ghost predicate Valid()
      reads this
    {
      TablesValid(users, skills, offered, wanted, otps, swaps, feedback)
    }

    constructor ()
      ensures Valid()
      ensures users == [] && skills == [] && offered == {} && wanted == {}
      ensures otps == [] && swaps == [] && feedback == [] && outbox == []
    {
      users, skills, offered, wanted := [], [], {}, {};
      otps, swaps, feedback, outbox := [], [], [], [];
    }
  }

  // -------------------------------------------------------------------- lookups

  /** `user.findUnique({ where: { email } })`: the id of the user with that email. */
  function UserByEmail(users: seq<User>, email: string): (r: Option<UserId>)
    ensures r.None? <==> forall k :: 0 <= k < |users| ==> users[k].email != email
    ensures r.Some? ==> r.value < |users| && users[r.value].email == email
    ensures r.Some? && EmailsUnique(users) ==>
      forall k :: 0 <= k < |users| && users[k].email == email ==> k == r.value
  {
    if users == [] then None
    else match UserByEmail(users[..|users| - 1], email)
      case Some(i) => Some(i)
      case None => if users[|users| - 1].email == email then Some(|users| - 1) else None
  }

  /** The links `createMany` inserts for one user and a list of skill ids. */
  function LinksFor(userId: UserId, ids: seq<SkillId>): (r: set<Link>)
    ensures forall l :: l in r <==> l.userId == userId && l.skillId in ids
  {
    set k | 0 <= k < |ids| :: Link(userId, ids[k])
  }

  // ------------------------------------------------------------ find-or-create

  /** Find-or-create of one skill name: an existing name keeps its id, an
      unknown name becomes a new row at the end of the table. */
  function ResolveSkill<Name(==)>(skills: seq<Name>, name: Name): (r: (seq<Name>, SkillId))
    ensures r.1 < |r.0| && r.0[r.1] == name
    ensures name in skills ==> r.0 == skills && IndexOf(skills, name) == Some(r.1)
    ensures name !in skills ==> r.0 == skills + [name] && r.1 == |skills|
  {
    match IndexOf(skills, name)
    case Some(i) => (skills, i)
    case None => (skills + [name], |skills|)
  }

  /** Find-or-create of a list of skill names, one after the other. This is
      what the registration and profile-update code evidently intends; see
      `ResolveSkillsAsWritten` for what the concurrent version does. */
  function ResolveSkills<Name(==)>(skills: seq<Name>, names: seq<Name>): (r: (seq<Name>, seq<SkillId>))
    ensures |r.1| == |names|
    ensures skills <= r.0
    ensures forall i :: 0 <= i < |names| ==> r.1[i] < |r.0| && r.0[r.1[i]] == names[i]
    decreases |names|
  {
    if names == [] then (skills, [])
    else
      var first := ResolveSkill(skills, names[0]);
      var rest := ResolveSkills(first.0, names[1..]);
      assert forall i :: 1 <= i < |names| ==> names[1..][i - 1] == names[i];
      (rest.0, [first.1] + rest.1)
  }

  /** The rows find-or-create adds are names of the list that were not skills
      yet, and the table keeps its unique-name constraint. */
  lemma {:induction false} ResolveSkillsAddsOnlyUnknown<Name>(skills: seq<Name>, names: seq<Name>)
    ensures var all := ResolveSkills(skills, names).0;
      forall k :: |skills| <= k < |all| ==> all[k] in names && all[k] !in skills
    ensures NoDuplicates(skills) ==> NoDuplicates(ResolveSkills(skills, names).0)
    decreases |names|
  {
    if names != [] {
      var first := ResolveSkill(skills, names[0]);
      ResolveSkillsAddsOnlyUnknown(first.0, names[1..]);
      var all := ResolveSkills(skills, names).0;
      assert all == ResolveSkills(first.0, names[1..]).0;
      forall k | |skills| <= k < |all| ensures all[k] in names && all[k] !in skills {
        if k < |first.0| {
          assert all[..|first.0|][k] == first.0[k];
        } else {
          assert all[k] in names[1..];
          assert all[k] !in first.0;
        }
      }
      if NoDuplicates(skills) {
        if names[0] !in skills {
          assert NoDuplicates(first.0) by {
            forall i, j | 0 <= i < j < |first.0| ensures first.0[i] != first.0[j] {
              if j == |skills| { assert first.0[i] == skills[i]; }
            }
          }
        }
      }
    }
  }

  /** Every name of the list is present after resolution. */
  lemma ResolvedNamesPresent<Name>(skills: seq<Name>, names: seq<Name>, name: Name)
    requires name in names
    ensures name in ResolveSkills(skills, names).0
  {
    var r := ResolveSkills(skills, names);
    var i :| 0 <= i < |names| && names[i] == name;
    assert r.0[r.1[i]] == name;
  }

  /** Existing names reuse their ids; unknown names each get exactly one new
      row, at the end of the table. */
  lemma ResolveSkillsFindOrCreate<Name>(skills: seq<Name>, names: seq<Name>)
    requires NoDuplicates(skills)
    ensures var (all, ids) := ResolveSkills(skills, names);
      && (forall i :: 0 <= i < |names| && names[i] in skills ==> Some(ids[i]) == IndexOf(skills, names[i]))
      && (forall n :: n in all[|skills|..] <==> n in names && n !in skills)
      && NoDuplicates(all[|skills|..])
  {
    var (all, ids) := ResolveSkills(skills, names);
    ResolveSkillsAddsOnlyUnknown(skills, names);
    forall i | 0 <= i < |names| && names[i] in skills
      ensures Some(ids[i]) == IndexOf(skills, names[i])
    {
      var j := IndexOf(skills, names[i]).value;
      assert all[..|skills|][j] == names[i];
      IndexOfUnique(all, j);
      IndexOfUnique(all, ids[i]);
    }
    forall n | n in names && n !in skills ensures n in all[|skills|..] {
      ResolvedNamesPresent(skills, names, n);
      var k := IndexOf(all, n).value;
      assert all[|skills|..][k - |skills|] == n;
    }
    forall n | n in all[|skills|..] ensures n in names && n !in skills {
      var k :| 0 <= k < |all| - |skills| && all[|skills|..][k] == n;
      assert all[|skills| + k] == n;
    }
    var added := all[|skills|..];
    forall i, j | 0 <= i < j < |added| ensures added[i] != added[j] {
      assert added[i] == all[|skills| + i] && added[j] == all[|skills| + j];
    }
  }

  /** The names of a list that are not skills yet, in list order and with
      repetitions: the rows the concurrent find-or-create tries to create. */
  function UnknownNames<Name(==)>(skills: seq<Name>, names: seq<Name>): (r: seq<Name>)
    ensures forall k :: 0 <= k < |r| ==> r[k] !in skills
    ensures forall k :: 0 <= k < |names| && names[k] !in skills ==> names[k] in r
  {
    if names == [] then []
    else
      var rest := UnknownNames(skills, names[1..]);
      assert forall k :: 1 <= k < |names| ==> names[k] == names[1..][k - 1];
      (if names[0] in skills then [] else [names[0]]) + rest
  }

  /** The id the concurrent find-or-create gives a name: its row if it was
      found, otherwise the row created for it. */
  function SnapshotId<Name(==)>(skills: seq<Name>, created: seq<Name>, name: Name): (id: SkillId)
    requires name in skills || name in created
    ensures id < |skills| + |created| && (skills + created)[id] == name
  {
    match IndexOf(skills, name)
    case Some(i) => i
    case None => |skills| + IndexOf(created, name).value
  }

  /** Find-or-create as written: `Promise.all(skills.map(async (n) => { find;
      create if missing }))`. Every lookup is issued before any create, so all
      of them see the table as it was; a name missing from it and repeated in
      the list is created twice, and the second create violates the unique
      name constraint. */
  function ResolveSkillsAsWritten<Name(==)>(skills: seq<Name>, names: seq<Name>): (r: Result<(seq<Name>, seq<SkillId>), Failure>)
    ensures r.Failure? <==> !NoDuplicates(UnknownNames(skills, names))
    ensures r.Failure? ==> r.error == PlainError(UniqueViolation)
  {
    var created := UnknownNames(skills, names);
    if !NoDuplicates(created) then Failure(PlainError(UniqueViolation))
    else
      Success((skills + created,
               seq(|names|, i requires 0 <= i < |names| => SnapshotId(skills, created, names[i]))))
  }

  /** A name that is not a skill yet, given twice: the concurrent version
      fails with a unique violation ... */
  lemma RepeatedNewSkillFails<Name>(skills: seq<Name>, name: Name)
    requires name !in skills
    ensures ResolveSkillsAsWritten(skills, [name, name]).Failure?
  {
    var names := [name, name];
    assert names[1..] == [name];
    assert [name][1..] == [];
    assert UnknownNames(skills, [name]) == [name];
    assert UnknownNames(skills, names) == names;
  }

  /** ... while the sequential version creates it once and gives both
      entries its id. */
  lemma RepeatedNewSkillCreatedOnce<Name>(skills: seq<Name>, name: Name)
    requires name !in skills
    ensures ResolveSkills(skills, [name, name]) == (skills + [name], [|skills|, |skills|])
  {
    var names := [name, name];
    assert names[1..] == [name];
    ResolveFreshSkill(skills, name);
    var first := ResolveSkill(skills, name);
    var rest := ResolveSkills(first.0, names[1..]);
    assert ResolveSkills(skills, names) == (rest.0, [first.1] + rest.1);
    assert [first.1] + rest.1 == [|skills|, |skills|];
  }

  /** A fresh name gets a new row, and looking it up again finds that row. */
  lemma ResolveFreshSkill<Name>(skills: seq<Name>, name: Name)
    requires name !in skills
    ensures ResolveSkill(skills, name) == (skills + [name], |skills|)
    ensures ResolveSkill(skills + [name], name) == (skills + [name], |skills|)
    ensures ResolveSkills(skills + [name], [name]) == (skills + [name], [|skills|])
  {
    assert [name][1..] == [];
    assert [|skills|] + [] == [|skills|];
  }

  lemma {:induction false} UnknownNamesIgnoresAbsent<Name>(skills: seq<Name>, name: Name, names: seq<Name>)
    requires name !in names
    ensures UnknownNames(skills + [name], names) == UnknownNames(skills, names)
  {
    if names != [] {
      UnknownNamesIgnoresAbsent(skills, name, names[1..]);
    }
  }

  /** When the first name of a list is new and no new name repeats, the
      first name does not come back later in the list. */
  lemma UnknownHeadNotRepeated<Name>(skills: seq<Name>, names: seq<Name>)
    requires names != [] && names[0] !in skills
    requires NoDuplicates(UnknownNames(skills, names))
    ensures UnknownNames(skills, names) == [names[0]] + UnknownNames(skills, names[1..])
    ensures names[0] !in names[1..]
    ensures NoDuplicates(UnknownNames(skills, names[1..]))
  {
    var n, rest := names[0], names[1..];
    var created := UnknownNames(skills, names);
    var tail := UnknownNames(skills, rest);
    assert created == [n] + tail;
    forall k | 0 <= k < |tail| ensures tail[k] != n {
      assert created[k + 1] == tail[k];
      assert created[0] == n && created[0] != created[k + 1];
    }
    forall j | 0 <= j < |rest| ensures rest[j] != n {
      assert names[j + 1] == rest[j];
    }
    forall i, j | 0 <= i < j < |tail| ensures tail[i] != tail[j] {
      assert tail[i] == created[i + 1] && tail[j] == created[j + 1];
    }
  }

  /** Without a repeated new name, the sequential version appends exactly
      the unknown names, in list order. */
  lemma {:induction false} ResolvedTableAppendsUnknown<Name>(skills: seq<Name>, names: seq<Name>)
    requires NoDuplicates(UnknownNames(skills, names))
    ensures ResolveSkills(skills, names).0 == skills + UnknownNames(skills, names)
    decreases |names|
  {
    if names != [] {
      var n, rest := names[0], names[1..];
      var s1 := ResolveSkill(skills, n).0;
      assert ResolveSkills(skills, names).0 == ResolveSkills(s1, rest).0;
      if n in skills {
        assert UnknownNames(skills, names) == UnknownNames(skills, rest);
        ResolvedTableAppendsUnknown(skills, rest);
      } else {
        UnknownHeadNotRepeated(skills, names);
        UnknownNamesIgnoresAbsent(skills, n, rest);
        ResolvedTableAppendsUnknown(s1, rest);
        assert s1 + UnknownNames(skills, rest) == skills + UnknownNames(skills, names);
      }
    }
  }

  /** Without a repeated new name the two versions agree. */
  lemma AsWrittenAgreesWithoutRepeats<Name>(skills: seq<Name>, names: seq<Name>)
    requires NoDuplicates(skills)
    requires NoDuplicates(UnknownNames(skills, names))
    ensures ResolveSkillsAsWritten(skills, names) == Success(ResolveSkills(skills, names))
  {
    var created := UnknownNames(skills, names);
    var (all, ids) := ResolveSkills(skills, names);
    ResolvedTableAppendsUnknown(skills, names);
    ResolveSkillsAddsOnlyUnknown(skills, names);
    var aw := ResolveSkillsAsWritten(skills, names).value;
    forall i | 0 <= i < |names| ensures aw.1[i] == ids[i] {
      var a, b := aw.1[i], ids[i];
      assert all[a] == names[i] == all[b];
    }
    assert aw.1 == ids;
  }
}
