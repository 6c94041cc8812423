/** The users service: a member's profile update, and the directory of
    other public members with their skills and rating. */
module UsersService {
  import opened Common
  import opened Store

  const UserUpdated := "User updated successfully"
  const UpdateFallback := "Failed to update user"
  const ListFallback := "Failed to retrieve users"

  /** The update body; `None` is a field the client left out, and an omitted
      skill list arrives as the empty list. */
  datatype UpdateUserDto = UpdateUserDto(
    name: Option<string>,
    profilePic: Option<string>,
    phone: Option<string>,
    location: Option<string>,
    profilePhoto: Option<string>,
    availability: Option<seq<string>>,
    offeredSkills: seq<string>,
    wantedSkills: seq<string>,
    password: Option<string>)

  // -------------------------------------------------------------- updateUser

  /** The database client leaves a column alone when its value is undefined. */
  function Keep<T>(given: Option<T>, current: T): T {
    match given
    case Some(v) => v
    case None => current
  }

  /** The user row after the update: each supplied field replaces the stored
      one, a non-empty password is stored hashed, and nothing else moves. */
  function Patched(u: User, dto: UpdateUserDto, hash: string -> string): (r: User)
    ensures dto.name.Some? ==> r.name == dto.name.value
    ensures dto.name.None? ==> r.name == u.name
    ensures dto.profilePic.Some? ==> r.profilePic == dto.profilePic.value
    ensures dto.profilePic.None? ==> r.profilePic == u.profilePic
    ensures r.phone == (if dto.phone.Some? then dto.phone else u.phone)
    ensures r.location == (if dto.location.Some? then dto.location else u.location)
    ensures r.profilePhoto == (if dto.profilePhoto.Some? then dto.profilePhoto else u.profilePhoto)
    ensures dto.availability.Some? ==> r.availability == dto.availability.value
    ensures dto.availability.None? ==> r.availability == u.availability
    ensures (dto.password.None? || dto.password.value == "") ==> r.password == u.password
    ensures dto.password.Some? && dto.password.value != "" ==> r.password == Some(hash(dto.password.value))
    ensures r.email == u.email && r.role == u.role && r.status == u.status && r.isPublic == u.isPublic
  {
    User(Keep(dto.name, u.name), u.email, Keep(dto.profilePic, u.profilePic),
         if dto.phone.Some? then dto.phone else u.phone,
         if dto.location.Some? then dto.location else u.location,
         if dto.profilePhoto.Some? then dto.profilePhoto else u.profilePhoto,
         Keep(dto.availability, u.availability),
         if dto.password.Some? && dto.password.value != "" then Some(hash(dto.password.value)) else u.password,
         u.role, u.status, u.isPublic)
  }

  /** `deleteMany` of a member's links followed by `createMany` of the new
      ones: every other member's links stay. */
  function ReplaceLinks(links: set<Link>, userId: UserId, ids: seq<SkillId>): (r: set<Link>)
    ensures forall l :: l in r <==> (l in links && l.userId != userId) || (l.userId == userId && l.skillId in ids)
  {
    (set l | l in links && l.userId != userId) + LinksFor(userId, ids)
  }

  /** Distinct names resolve to distinct ids. */
  lemma DistinctNamesDistinctIds<Name>(skills: seq<Name>, names: seq<Name>)
    requires NoDuplicates(names)
    ensures NoDuplicates(ResolveSkills(skills, names).1)
  {
    var (all, ids) := ResolveSkills(skills, names);
    forall i, j | 0 <= i < j < |ids| ensures ids[i] != ids[j] {
      assert all[ids[i]] == names[i] && all[ids[j]] == names[j];
    }
  }

  /** A repeated name resolves to a repeated id. */
  lemma RepeatedNameRepeatedId<Name>(skills: seq<Name>, names: seq<Name>, i: nat, j: nat)
    requires NoDuplicates(skills)
    requires i < j < |names| && names[i] == names[j]
    ensures ResolveSkills(skills, names).1[i] == ResolveSkills(skills, names).1[j]
  {
    var (all, ids) := ResolveSkills(skills, names);
    ResolveSkillsAddsOnlyUnknown(skills, names);
    assert all[ids[i]] == all[ids[j]];
  }

  /** Resolving a list of names gives repeated ids exactly where the list
      repeats a name; `createMany` without skipping then hits the link
      table's unique key. */
  lemma ResolvedIdsDistinct<Name>(skills: seq<Name>, names: seq<Name>)
    requires NoDuplicates(skills)
    ensures NoDuplicates(ResolveSkills(skills, names).1) <==> NoDuplicates(names)
  {
    if NoDuplicates(names) {
      DistinctNamesDistinctIds(skills, names);
    } else {
      var i, j :| 0 <= i < j < |names| && names[i] == names[j];
      RepeatedNameRepeatedId(skills, names, i, j);
    }
  }

  /** Both link lists of an update can be created exactly when neither skill
      list repeats a name. */
  lemma UpdateSucceedsIff(skills: seq<string>, offeredNames: seq<string>, wantedNames: seq<string>)
    requires NoDuplicates(skills)
    ensures var (s1, offeredIds) := ResolveSkills(skills, offeredNames);
      (NoDuplicates(offeredIds) && NoDuplicates(ResolveSkills(s1, wantedNames).1))
        <==> (NoDuplicates(offeredNames) && NoDuplicates(wantedNames))
  {
    ResolveSkillsAddsOnlyUnknown(skills, offeredNames);
    ResolvedIdsDistinct(skills, offeredNames);
    ResolvedIdsDistinct(ResolveSkills(skills, offeredNames).0, wantedNames);
  }

  /** The outcome of the profile transaction on the tables it touches
      (users, skills, offered links, wanted links): patch the row, then for
      each non-empty skill list resolve its names find-or-create and replace
      the member's links of that kind. A missing row or a repeated name fails
      the whole transaction. The offered list is resolved first, the wanted
      list against the table that leaves. */
  function UpdateOutcome(users: seq<User>, skills: seq<string>, offered: set<Link>, wanted: set<Link>,
                         userId: UserId, dto: UpdateUserDto, hash: string -> string)
    : (r: Result<(seq<User>, seq<string>, set<Link>, set<Link>), Failure>)
    requires NoDuplicates(skills)
    ensures userId >= |users| ==> r == Failure(HttpFailure(InternalServerError, RecordNotFound))
    ensures userId < |users| && !(NoDuplicates(dto.offeredSkills) && NoDuplicates(dto.wantedSkills)) ==>
      r == Failure(HttpFailure(InternalServerError, UniqueViolation))
    ensures r.Success? <==> userId < |users| && NoDuplicates(dto.offeredSkills) && NoDuplicates(dto.wantedSkills)
    ensures r.Success? ==>
      var (s1, offeredIds) := ResolveSkills(skills, dto.offeredSkills);
      var (s2, wantedIds) := ResolveSkills(s1, dto.wantedSkills);
      && r.value.0 == users[userId := Patched(users[userId], dto, hash)]
      && r.value.1 == s2
      && r.value.2 == (if |dto.offeredSkills| > 0 then ReplaceLinks(offered, userId, offeredIds) else offered)
      && r.value.3 == (if |dto.wantedSkills| > 0 then ReplaceLinks(wanted, userId, wantedIds) else wanted)
  {
    if userId >= |users| then
      Failure(Rethrow(PlainError(RecordNotFound), UpdateFallback, InternalServerError))
    else
      var (s1, offeredIds) := ResolveSkills(skills, dto.offeredSkills);
      var (s2, wantedIds) := ResolveSkills(s1, dto.wantedSkills);
      UpdateSucceedsIff(skills, dto.offeredSkills, dto.wantedSkills);
      if !NoDuplicates(offeredIds) || !NoDuplicates(wantedIds) then
        Failure(Rethrow(PlainError(UniqueViolation), UpdateFallback, InternalServerError))
      else
        Success((users[userId := Patched(users[userId], dto, hash)], s2,
                 if |dto.offeredSkills| > 0 then ReplaceLinks(offered, userId, offeredIds) else offered,
                 if |dto.wantedSkills| > 0 then ReplaceLinks(wanted, userId, wantedIds) else wanted))
  }

  /** `updateUser`: the transaction commits its outcome, or changes nothing. */
  method UpdateUser(db: Db, userId: UserId, dto: UpdateUserDto, hash: string -> string)
    returns (r: Result<string, Failure>)
    requires db.Valid()
    modifies db
    ensures db.Valid()
    ensures var out := UpdateOutcome(old(db.users), old(db.skills), old(db.offered), old(db.wanted), userId, dto, hash);
      && (r.Failure? <==> out.Failure?)
      && (r.Failure? ==> r.error == out.error && unchanged(db))
      && (r.Success? ==>
            && r.value == UserUpdated
            && (db.users, db.skills, db.offered, db.wanted) == out.value
            && db.otps == old(db.otps) && db.swaps == old(db.swaps)
            && db.feedback == old(db.feedback) && db.outbox == old(db.outbox))
  {
    var out := UpdateOutcome(db.users, db.skills, db.offered, db.wanted, userId, dto, hash);
    if out.Failure? {
      r := Failure(out.error);
      return;
    }
    UpdateKeepsValid(db.users, db.skills, db.offered, db.wanted, db.otps, db.swaps, db.feedback,
                     userId, dto, hash);
    db.users, db.skills, db.offered, db.wanted := out.value.0, out.value.1, out.value.2, out.value.3;
    r := Success(UserUpdated);
  }

  /** A successful update keeps every constraint of the schema. */
  lemma UpdateKeepsValid(users: seq<User>, skills: seq<string>, offered: set<Link>, wanted: set<Link>,
                         otps: seq<Otp>, swaps: seq<SwapRequest>, feedback: seq<Feedback>,
                         userId: UserId, dto: UpdateUserDto, hash: string -> string)
    requires TablesValid(users, skills, offered, wanted, otps, swaps, feedback)
    requires UpdateOutcome(users, skills, offered, wanted, userId, dto, hash).Success?
    ensures var out := UpdateOutcome(users, skills, offered, wanted, userId, dto, hash).value;
      TablesValid(out.0, out.1, out.2, out.3, otps, swaps, feedback)
  {
    var (s1, offeredIds) := ResolveSkills(skills, dto.offeredSkills);
    var (s2, wantedIds) := ResolveSkills(s1, dto.wantedSkills);
    ResolveSkillsAddsOnlyUnknown(skills, dto.offeredSkills);
    ResolveSkillsAddsOnlyUnknown(s1, dto.wantedSkills);
    var users' := users[userId := Patched(users[userId], dto, hash)];
    assert forall k :: 0 <= k < |users'| ==> users'[k].email == users[k].email;
    forall l | l in LinksFor(userId, offeredIds) ensures l.skillId < |s2| {
      var i :| 0 <= i < |offeredIds| && offeredIds[i] == l.skillId;
    }
    forall l | l in LinksFor(userId, wantedIds) ensures l.skillId < |s2| {
      var i :| 0 <= i < |wantedIds| && wantedIds[i] == l.skillId;
    }
  }

  /** The skills a member is linked to are named by exactly the names of the
      list the member's links were replaced with. */
  lemma ReplacedLinksNameTheList(skills: seq<string>, names: seq<string>, links: set<Link>, userId: UserId)
    ensures var (all, ids) := ResolveSkills(skills, names);
      (set l | l in ReplaceLinks(links, userId, ids) && l.userId == userId && l.skillId < |all| :: all[l.skillId])
        == (set n | n in names)
  {
    var (all, ids) := ResolveSkills(skills, names);
    var linked := set l | l in ReplaceLinks(links, userId, ids) && l.userId == userId && l.skillId < |all| :: all[l.skillId];
    forall n | n in linked ensures n in names {
      var l :| l in ReplaceLinks(links, userId, ids) && l.userId == userId && l.skillId < |all| && all[l.skillId] == n;
      var i :| 0 <= i < |ids| && ids[i] == l.skillId;
    }
    forall n | n in names ensures n in linked {
      var i :| 0 <= i < |names| && names[i] == n;
      assert Link(userId, ids[i]) in ReplaceLinks(links, userId, ids);
    }
  }

  // ------------------------------------------------------------- getAllUsers

  /** The `availability` query: absent, one value, or several. */
  datatype AvailabilityFilter = AnyAvailability | OneSlot(slot: string) | SomeSlots(slots: seq<string>)

  /** `hasSome`: the member shares at least one value with the filter. An
      absent filter or an empty single value filters nothing. */
  predicate AvailabilityMatches(availability: seq<string>, filter: AvailabilityFilter) {
    match filter
    case AnyAvailability => true
    case OneSlot(s) => s == "" || s in availability
    case SomeSlots(ss) => exists k :: 0 <= k < |ss| && ss[k] in availability
  }

  /** The members the directory may show the caller. */
  predicate Visible(users: seq<User>, i: nat, currentUserId: UserId, search: string,
                    filter: AvailabilityFilter, contains: (string, string) -> bool)
  {
    && i < |users|
    && i != currentUserId
    && users[i].isPublic
    && (search == "" || contains(users[i].name, search))
    && AvailabilityMatches(users[i].availability, filter)
  }

  /** Sum and number of a member's received ratings; the mean is their
      quotient. */
  datatype Ratings = Ratings(sum: int, count: nat)

  function RatingsFor(feedback: seq<Feedback>, userId: UserId): (r: Option<Ratings>)
    ensures r.None? <==> forall k :: 0 <= k < |feedback| ==> feedback[k].revieweeId != userId
    ensures r.Some? ==> r.value.count > 0
  {
    if feedback == [] then None
    else
      var rest := RatingsFor(feedback[..|feedback| - 1], userId);
      var f := feedback[|feedback| - 1];
      if f.revieweeId != userId then rest
      else match rest
        case None => Some(Ratings(f.rating, 1))
        case Some(rt) => Some(Ratings(rt.sum + f.rating, rt.count + 1))
  }

  /** Received ratings of 1 to 5 have a mean between 1 and 5. */
  lemma {:induction false} RatingsInRange(feedback: seq<Feedback>, userId: UserId)
    requires forall k :: 0 <= k < |feedback| ==> 1 <= feedback[k].rating <= 5
    ensures var r := RatingsFor(feedback, userId);
      r.Some? ==> r.value.count <= r.value.sum <= 5 * r.value.count
  {
    if feedback != [] {
      RatingsInRange(feedback[..|feedback| - 1], userId);
    }
  }

  /** The names of the skills a member is linked to. */
  function SkillNames(links: set<Link>, skills: seq<string>, userId: UserId): set<string> {
    set l | l in links && l.userId == userId && l.skillId < |skills| :: skills[l.skillId]
  }

  datatype UserCard = UserCard(
    id: string,
    name: string,
    email: string,
    profilePic: string,
    phone: Option<string>,
    location: Option<string>,
    profilePhoto: Option<string>,
    availability: seq<string>,
    averageRating: Option<Ratings>,
    offeredSkills: set<string>,
    wantedSkills: set<string>)

  function CardOf(users: seq<User>, skills: seq<string>, offered: set<Link>, wanted: set<Link>,
                  feedback: seq<Feedback>, i: nat): (r: UserCard)
    requires i < |users|
    ensures r.id == NatToString(i)
    ensures var u := users[i];
      && r.name == u.name && r.email == u.email && r.profilePic == u.profilePic
      && r.phone == u.phone && r.location == u.location && r.profilePhoto == u.profilePhoto
      && r.availability == u.availability
    ensures r.averageRating == RatingsFor(feedback, i)
    ensures r.offeredSkills == SkillNames(offered, skills, i)
    ensures r.wantedSkills == SkillNames(wanted, skills, i)
  {
    var u := users[i];
    UserCard(NatToString(i), u.name, u.email, u.profilePic, u.phone, u.location, u.profilePhoto,
             u.availability, RatingsFor(feedback, i),
             SkillNames(offered, skills, i), SkillNames(wanted, skills, i))
  }

  /** The visible members, newest first. */
  function VisibleIds(users: seq<User>, currentUserId: UserId, search: string,
                      filter: AvailabilityFilter, contains: (string, string) -> bool): (r: seq<nat>)
    ensures forall k :: 0 <= k < |r| ==> Visible(users, r[k], currentUserId, search, filter, contains)
    ensures forall i :: 0 <= i < |users| && Visible(users, i, currentUserId, search, filter, contains) ==> i in r
    ensures forall j, k :: 0 <= j < k < |r| ==> r[j] > r[k]
  {
    NewestFirst(|users|, (i: nat) => Visible(users, i, currentUserId, search, filter, contains))
  }

  function Cards(users: seq<User>, skills: seq<string>, offered: set<Link>, wanted: set<Link>,
                 feedback: seq<Feedback>, ids: seq<nat>): (r: seq<UserCard>)
    requires forall k :: 0 <= k < |ids| ==> ids[k] < |users|
    ensures |r| == |ids|
    ensures forall k :: 0 <= k < |r| ==> r[k] == CardOf(users, skills, offered, wanted, feedback, ids[k])
  {
    seq(|ids|, k requires 0 <= k < |ids| => CardOf(users, skills, offered, wanted, feedback, ids[k]))
  }

  /** Prisma's `skip`: `(page - 1) * limit`. */
  function UsersSkip(page: int, limit: nat): int { (page - 1) * limit }

  /** The ids on the requested page of the directory. */
  function ListedIds(users: seq<User>, currentUserId: UserId, filter: AvailabilityFilter, search: string,
                     page: int, limit: nat, contains: (string, string) -> bool): (r: seq<nat>)
    requires UsersSkip(page, limit) >= 0
    ensures forall k :: 0 <= k < |r| ==> Visible(users, r[k], currentUserId, search, filter, contains)
    ensures forall j, k :: 0 <= j < k < |r| ==> r[j] > r[k]
    ensures |r| <= limit
    ensures r == Paginate(VisibleIds(users, currentUserId, search, filter, contains), UsersSkip(page, limit), limit)
  {
    var ids := VisibleIds(users, currentUserId, search, filter, contains);
    PaginateFrom(ids, UsersSkip(page, limit), limit);
    PaginateDecreasing(ids, UsersSkip(page, limit), limit);
    var r := Paginate(ids, UsersSkip(page, limit), limit);
    assert forall k :: 0 <= k < |r| ==> Visible(users, r[k], currentUserId, search, filter, contains) by {
      forall k | 0 <= k < |r| ensures Visible(users, r[k], currentUserId, search, filter, contains) {
        var j :| 0 <= j < |ids| && ids[j] == r[k];
      }
    }
    r
  }

  /** `getAllUsers`: one page of the directory, newest members first. A page
      below 1 makes a negative `skip`, which the database client rejects with
      its own message (`clientError`). */
  function GetAllUsers(users: seq<User>, skills: seq<string>, offered: set<Link>, wanted: set<Link>,
                       feedback: seq<Feedback>, currentUserId: UserId, filter: AvailabilityFilter,
                       search: string, page: int, limit: nat, contains: (string, string) -> bool,
                       clientError: string): (r: Result<seq<UserCard>, Failure>)
    ensures r.Failure? <==> UsersSkip(page, limit) < 0
    ensures r.Failure? ==> r.error == HttpFailure(InternalServerError, OrElse(clientError, ListFallback))
    ensures r.Success? ==> |r.value| <= limit
    ensures r.Success? ==>
      var ids := ListedIds(users, currentUserId, filter, search, page, limit, contains);
      && |r.value| == |ids|
      && forall k :: 0 <= k < |r.value| ==> r.value[k] == CardOf(users, skills, offered, wanted, feedback, ids[k])
  {
    if UsersSkip(page, limit) < 0 then
      Failure(Rethrow(PlainError(clientError), ListFallback, InternalServerError))
    else
      Success(Cards(users, skills, offered, wanted, feedback,
                    ListedIds(users, currentUserId, filter, search, page, limit, contains)))
  }

  /** Every listed card is the card of a visible member (never the caller,
      never a private profile, always matching the search and availability),
      and the directory runs newest member first. */
  lemma ListedUsersVisible(users: seq<User>, skills: seq<string>, offered: set<Link>, wanted: set<Link>,
                           feedback: seq<Feedback>, currentUserId: UserId, filter: AvailabilityFilter,
                           search: string, page: int, limit: nat, contains: (string, string) -> bool,
                           clientError: string)
    requires UsersSkip(page, limit) >= 0
    ensures var data := GetAllUsers(users, skills, offered, wanted, feedback, currentUserId, filter, search,
                                    page, limit, contains, clientError).value;
      var ids := ListedIds(users, currentUserId, filter, search, page, limit, contains);
      && |data| == |ids|
      && (forall k :: 0 <= k < |data| ==>
            Visible(users, ids[k], currentUserId, search, filter, contains)
            && data[k] == CardOf(users, skills, offered, wanted, feedback, ids[k]))
      && (forall j, k :: 0 <= j < k < |data| ==> ParseDecimal(data[j].id) > ParseDecimal(data[k].id))
  {
    var data := GetAllUsers(users, skills, offered, wanted, feedback, currentUserId, filter, search,
                            page, limit, contains, clientError).value;
    var ids := ListedIds(users, currentUserId, filter, search, page, limit, contains);
    forall k | 0 <= k < |data| ensures ParseDecimal(data[k].id) == ids[k] {
      ParseNatToString(ids[k]);
    }
  }

  /** The caller never sees their own card, and a card has an average
      rating exactly when its member received feedback. */
  lemma ListedUsersNotSelf(users: seq<User>, skills: seq<string>, offered: set<Link>, wanted: set<Link>,
                           feedback: seq<Feedback>, currentUserId: UserId, filter: AvailabilityFilter,
                           search: string, page: int, limit: nat, contains: (string, string) -> bool,
                           clientError: string)
    requires UsersSkip(page, limit) >= 0
    ensures var data := GetAllUsers(users, skills, offered, wanted, feedback, currentUserId, filter, search,
                                    page, limit, contains, clientError).value;
      forall k :: 0 <= k < |data| ==>
        && data[k].id != NatToString(currentUserId)
        && (data[k].averageRating.Some? <==>
              exists f :: 0 <= f < |feedback| && feedback[f].revieweeId == ParseDecimal(data[k].id))
  {
    var data := GetAllUsers(users, skills, offered, wanted, feedback, currentUserId, filter, search,
                            page, limit, contains, clientError).value;
    var ids := ListedIds(users, currentUserId, filter, search, page, limit, contains);
    forall k | 0 <= k < |data|
      ensures data[k].id != NatToString(currentUserId)
      ensures data[k].averageRating.Some? <==>
        exists f :: 0 <= f < |feedback| && feedback[f].revieweeId == ParseDecimal(data[k].id)
    {
      ParseNatToString(ids[k]);
      if data[k].id == NatToString(currentUserId) {
        NatToStringInjective(ids[k], currentUserId);
      }
    }
  }

  /** Every visible member is listed: the member at position p of the
      newest-first order is card p % limit of page p / limit + 1. */
  lemma PageHoldsEveryVisible(users: seq<User>, skills: seq<string>, offered: set<Link>, wanted: set<Link>,
                              feedback: seq<Feedback>, currentUserId: UserId, filter: AvailabilityFilter,
                              search: string, limit: nat, contains: (string, string) -> bool, p: nat)
    requires limit >= 1
    requires p < |VisibleIds(users, currentUserId, search, filter, contains)|
    ensures var r := GetAllUsers(users, skills, offered, wanted, feedback, currentUserId, filter, search,
                                 p / limit + 1, limit, contains, "");
      && r.Success?
      && p % limit < |r.value|
      && r.value[p % limit].id == NatToString(VisibleIds(users, currentUserId, search, filter, contains)[p])
  {
    var d := p / limit;
    assert UsersSkip(d + 1, limit) == d * limit;
    PageSlot(p, limit);
    CardAt(users, skills, offered, wanted, feedback, currentUserId, filter, search, d + 1, limit, contains, p);
  }

  /** A visible member at a position the page covers is listed at its
      offset from the page's start. */
  lemma CardAt(users: seq<User>, skills: seq<string>, offered: set<Link>, wanted: set<Link>,
               feedback: seq<Feedback>, currentUserId: UserId, filter: AvailabilityFilter,
               search: string, page: int, limit: nat, contains: (string, string) -> bool, p: nat)
    requires 0 <= UsersSkip(page, limit) <= p < UsersSkip(page, limit) + limit
    requires p < |VisibleIds(users, currentUserId, search, filter, contains)|
    ensures var r := GetAllUsers(users, skills, offered, wanted, feedback, currentUserId, filter, search,
                                 page, limit, contains, "");
      && r.Success?
      && p - UsersSkip(page, limit) < |r.value|
      && r.value[p - UsersSkip(page, limit)].id == NatToString(VisibleIds(users, currentUserId, search, filter, contains)[p])
  {
    var all := VisibleIds(users, currentUserId, search, filter, contains);
    var skip := UsersSkip(page, limit);
    PaginateAt(all, skip, limit, p);
    var ids := ListedIds(users, currentUserId, filter, search, page, limit, contains);
    assert ids == Paginate(all, skip, limit);
    var r := GetAllUsers(users, skills, offered, wanted, feedback, currentUserId, filter, search,
                         page, limit, contains, "");
    assert r.Success? && |r.value| == |ids|;
    assert r.value[p - skip] == CardOf(users, skills, offered, wanted, feedback, all[p]);
  }
}
