/** The swap-request service: sending a request from one member to another,
    listing a member's sent or received requests a page at a time, and the
    receiver's answer to a request. */
module SwapRequests {
  import opened Common
  import opened Store

  const NotOffered := "Sender does not offer the specified skill."
  const NotWanted := "Receiver does not want the specified skill."
  const SwapSent := "Swap request sent successfully."
  const CreateFallback := "Failed to create swap request"
  const SwapNotFound := "Swap request not found"
  const NotResponder := "You are not authorized to update this request"
  const UpdateFallback := "Failed to update swap status"
  const ListFallback := "Something went wrong"

  /** The request body. Its ids are checked only to be numbers, so they may
      be negative or fractional. */
  datatype CreateSwapDto = CreateSwapDto(
    receiverId: real,
    senderSkillId: real,
    receiverSkillId: real,
    message: string)

  /** `BigInt` of a JavaScript number: the integer it denotes, or `None` for a
      fractional number, where `BigInt` throws a RangeError. */
  function BigIntOfNumber(x: real): (r: Option<int>)
    ensures r.Some? <==> x == x.Floor as real
    ensures r.Some? ==> r.value as real == x
  {
    if x == x.Floor as real then Some(x.Floor) else None
  }

  /** `BigInt` accepts whole numbers of either sign and refuses fractions. */
  lemma BigIntOfNumberExamples()
    ensures BigIntOfNumber(12.0) == Some(12)
    ensures BigIntOfNumber(-3.0) == Some(-3)
    ensures BigIntOfNumber(1.5) == None
    ensures BigIntOfNumber(-0.5) == None
  {
    assert (-0.5).Floor == -1;
  }

  /** Whether a `findUnique` on the composite key finds a link: ids are never
      negative, so a negative key finds nothing. */
  predicate HasLink(links: set<Link>, userId: int, skillId: int) {
    userId >= 0 && skillId >= 0 && Link(userId, skillId) in links
  }

  datatype Created = Created(message: string, swapRequestId: nat)

  // ------------------------------------------------------------------- create

  /** A member may ask for a swap only with a skill they offer, for a skill
      the receiver wants. A fractional id makes `BigInt` throw, which the
      catch turns into 500 with the fallback message. The new request gets
      `defaultStatus`, the schema's column default. */
  method CreateSwapRequest(db: Db, senderId: UserId, dto: CreateSwapDto, defaultStatus: SwapStatus)
    returns (r: Result<Created, Failure>)
    requires db.Valid()
    modifies db
    ensures db.Valid()
    ensures r.Failure? ==> unchanged(db)
    ensures BigIntOfNumber(dto.senderSkillId).None? ==>
      r == Failure(HttpFailure(InternalServerError, CreateFallback))
    ensures BigIntOfNumber(dto.senderSkillId).Some? && !HasLink(old(db.offered), senderId, BigIntOfNumber(dto.senderSkillId).value) ==>
      r == Failure(HttpFailure(BadRequest, NotOffered))
    ensures (BigIntOfNumber(dto.senderSkillId).Some? && HasLink(old(db.offered), senderId, BigIntOfNumber(dto.senderSkillId).value)
             && (BigIntOfNumber(dto.receiverId).None? || BigIntOfNumber(dto.receiverSkillId).None?)) ==>
      r == Failure(HttpFailure(InternalServerError, CreateFallback))
    ensures (BigIntOfNumber(dto.senderSkillId).Some? && HasLink(old(db.offered), senderId, BigIntOfNumber(dto.senderSkillId).value)
             && BigIntOfNumber(dto.receiverId).Some? && BigIntOfNumber(dto.receiverSkillId).Some?
             && !HasLink(old(db.wanted), BigIntOfNumber(dto.receiverId).value, BigIntOfNumber(dto.receiverSkillId).value)) ==>
      r == Failure(HttpFailure(BadRequest, NotWanted))
    ensures r.Success? <==>
      && BigIntOfNumber(dto.senderSkillId).Some? && BigIntOfNumber(dto.receiverId).Some? && BigIntOfNumber(dto.receiverSkillId).Some?
      && HasLink(old(db.offered), senderId, BigIntOfNumber(dto.senderSkillId).value)
      && HasLink(old(db.wanted), BigIntOfNumber(dto.receiverId).value, BigIntOfNumber(dto.receiverSkillId).value)
    ensures r.Success? ==>
      && r.value == Created(SwapSent, |old(db.swaps)|)
      && db.swaps == old(db.swaps) + [SwapRequest(senderId, dto.receiverId.Floor, dto.senderSkillId.Floor,
                                                  dto.receiverSkillId.Floor, dto.message, defaultStatus)]
      && db.users == old(db.users) && db.skills == old(db.skills)
      && db.offered == old(db.offered) && db.wanted == old(db.wanted)
      && db.otps == old(db.otps) && db.feedback == old(db.feedback) && db.outbox == old(db.outbox)
  {
    var senderSkill := BigIntOfNumber(dto.senderSkillId);
    if senderSkill.None? {
      r := Failure(HttpFailure(InternalServerError, CreateFallback));
      return;
    }
    if !HasLink(db.offered, senderId, senderSkill.value) {
      r := Failure(Rethrow(HttpFailure(BadRequest, NotOffered), CreateFallback, InternalServerError));
      return;
    }
    var receiver := BigIntOfNumber(dto.receiverId);
    var receiverSkill := BigIntOfNumber(dto.receiverSkillId);
    if receiver.None? || receiverSkill.None? {
      r := Failure(HttpFailure(InternalServerError, CreateFallback));
      return;
    }
    if !HasLink(db.wanted, receiver.value, receiverSkill.value) {
      r := Failure(Rethrow(HttpFailure(BadRequest, NotWanted), CreateFallback, InternalServerError));
      return;
    }
    var id := |db.swaps|;
    db.swaps := db.swaps + [SwapRequest(senderId, receiver.value, senderSkill.value, receiverSkill.value, dto.message, defaultStatus)];
    r := Success(Created(SwapSent, id));
  }

  // ------------------------------------------------------------------- listing

  /** The query string, after `parseInt` of the page fields; `None` is a field
      the client left out. */
  datatype ListQuery = ListQuery(search: Option<string>, pageNo: Option<int>, pageSize: Option<nat>, sender: Option<bool>)

  datatype PartyView = PartyView(id: UserId, name: string, email: string)
  datatype SkillView = SkillView(id: SkillId, name: string)

  /** A listed request, seen from the member who asked: the skills on each
      side and the other party. */
  datatype SwapItem = SwapItem(
    id: nat,
    message: string,
    status: SwapStatus,
    skillOffered: SkillView,
    skillRequested: SkillView,
    user: PartyView)

  /** `totalPages` is `None` where `Math.ceil` divides by a zero page size. */
  datatype PageMeta = PageMeta(totalItems: nat, currentPage: int, pageSize: nat, totalPages: Option<nat>)

  datatype SwapPage = SwapPage(data: seq<SwapItem>, meta: PageMeta)

  /** The member's side of the request: its sender when listing sent
      requests, its receiver otherwise. */
  predicate OnSide(s: SwapRequest, userId: UserId, sender: bool) {
    if sender then s.requesterId == userId else s.responderId == userId
  }

  /** The search filter: no search, or the text occurs (case-insensitively,
      as `contains` decides) in the message or either party's name. */
  predicate MatchesSearch(users: seq<User>, s: SwapRequest, search: string, contains: (string, string) -> bool)
    requires s.requesterId < |users| && s.responderId < |users|
  {
    search == ""
    || contains(s.message, search)
    || contains(users[s.requesterId].name, search)
    || contains(users[s.responderId].name, search)
  }

  predicate Selected(users: seq<User>, skills: seq<string>, swaps: seq<SwapRequest>, i: nat,
                     userId: UserId, sender: bool, search: string, contains: (string, string) -> bool)
  {
    && i < |swaps|
    && SwapsValid(swaps, users, skills)
    && OnSide(swaps[i], userId, sender)
    && MatchesSearch(users, swaps[i], search, contains)
  }

  function ItemOf(users: seq<User>, skills: seq<string>, swaps: seq<SwapRequest>, i: nat, sender: bool): (r: SwapItem)
    requires SwapsValid(swaps, users, skills) && i < |swaps|
    ensures r.id == i
  {
    var s := swaps[i];
    var requesterSkill := SkillView(s.requesterSkillId, skills[s.requesterSkillId]);
    var responderSkill := SkillView(s.responderSkillId, skills[s.responderSkillId]);
    var requester := PartyView(s.requesterId, users[s.requesterId].name, users[s.requesterId].email);
    var responder := PartyView(s.responderId, users[s.responderId].name, users[s.responderId].email);
    SwapItem(i, s.message,  s.status,
             if sender then requesterSkill else responderSkill,
             if sender then responderSkill else requesterSkill,
             if sender then responder else requester)
  }

  /** The ids of the requests a listing selects, newest first. */
  function Matching(users: seq<User>, skills: seq<string>, swaps: seq<SwapRequest>,
                    userId: UserId, sender: bool, search: string, contains: (string, string) -> bool): (r: seq<nat>)
    ensures forall k :: 0 <= k < |r| ==> Selected(users, skills, swaps, r[k], userId, sender, search, contains)
    ensures forall i :: 0 <= i < |swaps| && Selected(users, skills, swaps, i, userId, sender, search, contains) ==> i in r
    ensures forall j, k :: 0 <= j < k < |r| ==> r[j] > r[k]
  {
    NewestFirst(|swaps|, (i: nat) => Selected(users, skills, swaps, i, userId, sender, search, contains))
  }

  /** The listed view of each id of a page, in order. */
  function PageItems(users: seq<User>, skills: seq<string>, swaps: seq<SwapRequest>, ids: seq<nat>, sender: bool)
    : (r: seq<SwapItem>)
    requires SwapsValid(swaps, users, skills)
    requires forall k :: 0 <= k < |ids| ==> ids[k] < |swaps|
    ensures |r| == |ids|
    ensures forall k :: 0 <= k < |r| ==> r[k] == ItemOf(users, skills, swaps, ids[k], sender)
  {
    seq(|ids|, k requires 0 <= k < |ids| => ItemOf(users, skills, swaps, ids[k], sender))
  }

  function SearchOf(q: ListQuery): string { if q.search.Some? then q.search.value else "" }
  function PageNoOf(q: ListQuery): int { if q.pageNo.Some? then q.pageNo.value else 1 }
  function PageSizeOf(q: ListQuery): nat { if q.pageSize.Some? then q.pageSize.value else 10 }
  function SenderOf(q: ListQuery): bool { if q.sender.Some? then q.sender.value else true }

  /** Prisma's `skip`: `(pageNo - 1) * take`. */
  function SkipOf(q: ListQuery): int { (PageNoOf(q) - 1) * PageSizeOf(q) }

  /** `getAllSwapRequests`: the member's requests on the chosen side that
      match the search, newest first, one page of them, with the count and
      the number of pages. A page number below 1 makes a negative `skip`,
      which the database client rejects with its own message
      (`clientError`); a page size of 0 lists nothing. */
  function ListSwapRequests(users: seq<User>, skills: seq<string>, swaps: seq<SwapRequest>,
                            userId: UserId, q: ListQuery, contains: (string, string) -> bool,
                            clientError: string): (r: Result<SwapPage, Failure>)
    requires SwapsValid(swaps, users, skills)
    ensures r.Failure? <==> SkipOf(q) < 0
    ensures r.Failure? ==> r.error == HttpFailure(InternalServerError, OrElse(clientError, ListFallback))
    ensures r.Success? ==>
      && |r.value.data| <= PageSizeOf(q)
      && r.value.meta.pageSize == PageSizeOf(q)
      && r.value.meta.currentPage == PageNoOf(q)
      && r.value.meta.totalItems == |Matching(users, skills, swaps, userId, SenderOf(q), SearchOf(q), contains)|
      && (PageSizeOf(q) == 0 <==> r.value.meta.totalPages.None?)
      && (PageSizeOf(q) > 0 ==> r.value.meta.totalPages == Some(CeilDiv(r.value.meta.totalItems, PageSizeOf(q))))
    ensures r.Success? ==>
      var matching := Matching(users, skills, swaps, userId, SenderOf(q), SearchOf(q), contains);
      && |r.value.data| == |Paginate(matching, SkipOf(q), PageSizeOf(q))|
      && forall k :: 0 <= k < |r.value.data| ==>
           r.value.data[k] == ItemOf(users, skills, swaps, matching[SkipOf(q) + k], SenderOf(q))
  {
    var take := PageSizeOf(q);
    var skip := SkipOf(q);
    if skip < 0 then
      Failure(Rethrow(PlainError(clientError), ListFallback, InternalServerError))
    else
      var matching := Matching(users, skills, swaps, userId, SenderOf(q), SearchOf(q), contains);
      var page := Paginate(matching, skip, take);
      Success(SwapPage(PageItems(users, skills, swaps, page, SenderOf(q)),
                       PageMeta(|matching|, PageNoOf(q), take,
                                if take == 0 then None else Some(CeilDiv(|matching|, take)))))
  }

  /** Every listed item is one of the selected requests, shown from the
      member's side. */
  lemma ListedItemsSelected(users: seq<User>, skills: seq<string>, swaps: seq<SwapRequest>,
                            userId: UserId, q: ListQuery, contains: (string, string) -> bool,
                            clientError: string)
    requires SwapsValid(swaps, users, skills)
    requires ListSwapRequests(users, skills, swaps, userId, q, contains, clientError).Success?
    ensures var data := ListSwapRequests(users, skills, swaps, userId, q, contains, clientError).value.data;
      forall k :: 0 <= k < |data| ==>
        && Selected(users, skills, swaps, data[k].id, userId, SenderOf(q), SearchOf(q), contains)
        && data[k] == ItemOf(users, skills, swaps, data[k].id, SenderOf(q))
  {
    var matching := Matching(users, skills, swaps, userId, SenderOf(q), SearchOf(q), contains);
    var page := Paginate(matching, SkipOf(q), PageSizeOf(q));
    PaginateFrom(matching, SkipOf(q), PageSizeOf(q));
    var data := ListSwapRequests(users, skills, swaps, userId, q, contains, clientError).value.data;
    assert data == PageItems(users, skills, swaps, page, SenderOf(q));
    forall k | 0 <= k < |data|
      ensures Selected(users, skills, swaps, data[k].id, userId, SenderOf(q), SearchOf(q), contains)
    {
      var i :| 0 <= i < |matching| && matching[i] == page[k];
    }
  }

  /** A page runs newest first: ids strictly decrease down the page. */
  lemma ListedNewestFirst(users: seq<User>, skills: seq<string>, swaps: seq<SwapRequest>,
                          userId: UserId, q: ListQuery, contains: (string, string) -> bool,
                          clientError: string)
    requires SwapsValid(swaps, users, skills)
    requires ListSwapRequests(users, skills, swaps, userId, q, contains, clientError).Success?
    ensures var data := ListSwapRequests(users, skills, swaps, userId, q, contains, clientError).value.data;
      forall j, k :: 0 <= j < k < |data| ==> data[j].id > data[k].id
  {
    var matching := Matching(users, skills, swaps, userId, SenderOf(q), SearchOf(q), contains);
    var page := Paginate(matching, SkipOf(q), PageSizeOf(q));
    PaginateDecreasing(matching, SkipOf(q), PageSizeOf(q));
    var data := ListSwapRequests(users, skills, swaps, userId, q, contains, clientError).value.data;
    assert data == PageItems(users, skills, swaps, page, SenderOf(q));
  }

  /** Every request the member is on the chosen side of, and that the search
      matches, is listed on the first page once the page size covers the
      table. */
  lemma ListingIsComplete(users: seq<User>, skills: seq<string>, swaps: seq<SwapRequest>,
                          userId: UserId, search: string, sender: bool, contains: (string, string) -> bool,
                          size: nat, i: nat)
    requires SwapsValid(swaps, users, skills)
    requires size >= |swaps|
    requires Selected(users, skills, swaps, i, userId, sender, search, contains)
    ensures var r := ListSwapRequests(users, skills, swaps, userId, ListQuery(Some(search), Some(1), Some(size), Some(sender)), contains, "");
      r.Success? && exists k :: 0 <= k < |r.value.data| && r.value.data[k].id == i
  {
    var matching := Matching(users, skills, swaps, userId, sender, search, contains);
    assert i in matching;
    var k :| 0 <= k < |matching| && matching[k] == i;
    assert |matching| <= |swaps| by {
      MatchingShort(matching, |swaps|);
    }
    var q := ListQuery(Some(search), Some(1), Some(size), Some(sender));
    assert SkipOf(q) == 0;
    var r := ListSwapRequests(users, skills, swaps, userId, q, contains, "");
    assert Paginate(matching, 0, size) == matching;
    assert r.value.data == PageItems(users, skills, swaps, matching, sender);
    assert r.value.data[k].id == i;
  }

  /** Every match is listed: the match at position p of the newest-first
      order is item p % size of page p / size + 1, for any page size. */
  lemma PageHoldsEveryMatch(users: seq<User>, skills: seq<string>, swaps: seq<SwapRequest>,
                            userId: UserId, search: string, sender: bool, contains: (string, string) -> bool,
                            size: nat, p: nat)
    requires SwapsValid(swaps, users, skills)
    requires size >= 1
    requires p < |Matching(users, skills, swaps, userId, sender, search, contains)|
    ensures var r := ListSwapRequests(users, skills, swaps, userId,
                                      ListQuery(Some(search), Some(p / size + 1), Some(size), Some(sender)), contains, "");
      && r.Success?
      && p % size < |r.value.data|
      && r.value.data[p % size].id == Matching(users, skills, swaps, userId, sender, search, contains)[p]
  {
    var q := ListQuery(Some(search), Some(p / size + 1), Some(size), Some(sender));
    var d := p / size;
    assert PageNoOf(q) - 1 == d && PageSizeOf(q) == size;
    assert SkipOf(q) == d * size;
    PageSlot(p, size);
    ListedAt(users, skills, swaps, userId, q, contains, p);
  }

  /** A match at a position the query's page covers is listed at its offset
      from the page's start. */
  lemma ListedAt(users: seq<User>, skills: seq<string>, swaps: seq<SwapRequest>,
                 userId: UserId, q: ListQuery, contains: (string, string) -> bool, p: nat)
    requires SwapsValid(swaps, users, skills)
    requires 0 <= SkipOf(q) <= p < SkipOf(q) + PageSizeOf(q)
    requires p < |Matching(users, skills, swaps, userId, SenderOf(q), SearchOf(q), contains)|
    ensures var r := ListSwapRequests(users, skills, swaps, userId, q, contains, "");
      && r.Success?
      && p - SkipOf(q) < |r.value.data|
      && r.value.data[p - SkipOf(q)].id == Matching(users, skills, swaps, userId, SenderOf(q), SearchOf(q), contains)[p]
  {
    var matching := Matching(users, skills, swaps, userId, SenderOf(q), SearchOf(q), contains);
    PaginateAt(matching, SkipOf(q), PageSizeOf(q), p);
  }

  /** A strictly decreasing list of ids below n has at most n entries. */
  lemma {:induction false} MatchingShort(ids: seq<nat>, n: nat)
    requires forall k :: 0 <= k < |ids| ==> ids[k] < n
    requires forall j, k :: 0 <= j < k < |ids| ==> ids[j] > ids[k]
    ensures |ids| <= n
  {
    if ids != [] {
      assert forall k :: 0 <= k < |ids[1..]| ==> ids[1..][k] < ids[0];
      MatchingShort(ids[1..], ids[0]);
    }
  }

  /** A listing sees each request only from its own side: when listing sent
      requests the other party is the receiver, otherwise the sender. */
  lemma ListedOppositeParty(users: seq<User>, skills: seq<string>, swaps: seq<SwapRequest>,
                            userId: UserId, q: ListQuery, contains: (string, string) -> bool,
                            clientError: string, k: nat)
    requires SwapsValid(swaps, users, skills)
    requires ListSwapRequests(users, skills, swaps, userId, q, contains, clientError).Success?
    requires k < |ListSwapRequests(users, skills, swaps, userId, q, contains, clientError).value.data|
    ensures var item := ListSwapRequests(users, skills, swaps, userId, q, contains, clientError).value.data[k];
      var s := swaps[item.id];
      if SenderOf(q) then
        s.requesterId == userId && item.user.id == s.responderId && item.skillOffered.id == s.requesterSkillId
      else
        s.responderId == userId && item.user.id == s.requesterId && item.skillOffered.id == s.responderSkillId
  {
    ListedItemsSelected(users, skills, swaps, userId, q, contains, clientError);
  }

  // -------------------------------------------------------------- status update

  /** Only the receiver of a request may answer it. The body is untyped, so
      `requestId` is any number: a fractional one makes `BigInt` throw, and
      `rangeError` is the message it throws, which the catch passes on with
      500. A negative one finds no request. `parse` is the database enum's
      reading of the status text, and `clientError` the client's message
      when the text is not one of its values. */
  method UpdateSwapStatus(db: Db, userId: UserId, requestId: real, status: string,
                          parse: string -> Option<SwapStatus>, clientError: string, rangeError: string)
    returns (r: Result<(string, SwapRequest), Failure>)
    requires db.Valid()
    modifies db
    ensures db.Valid()
    ensures db.users == old(db.users) && db.skills == old(db.skills)
    ensures db.offered == old(db.offered) && db.wanted == old(db.wanted)
    ensures db.otps == old(db.otps) && db.feedback == old(db.feedback) && db.outbox == old(db.outbox)
    ensures BigIntOfNumber(requestId).None? ==>
      r == Failure(HttpFailure(InternalServerError, OrElse(rangeError, UpdateFallback))) && db.swaps == old(db.swaps)
    ensures (BigIntOfNumber(requestId).Some? && !(0 <= BigIntOfNumber(requestId).value < |old(db.swaps)|)) ==>
      r == Failure(HttpFailure(NotFound, SwapNotFound)) && db.swaps == old(db.swaps)
    ensures (BigIntOfNumber(requestId).Some? && 0 <= BigIntOfNumber(requestId).value < |old(db.swaps)|
             && old(db.swaps)[BigIntOfNumber(requestId).value].responderId != userId) ==>
      r == Failure(HttpFailure(Forbidden, NotResponder)) && db.swaps == old(db.swaps)
    ensures (BigIntOfNumber(requestId).Some? && 0 <= BigIntOfNumber(requestId).value < |old(db.swaps)|
             && old(db.swaps)[BigIntOfNumber(requestId).value].responderId == userId && parse(status).None?) ==>
      r == Failure(HttpFailure(InternalServerError, OrElse(clientError, UpdateFallback))) && db.swaps == old(db.swaps)
    ensures r.Success? <==>
      && BigIntOfNumber(requestId).Some? && 0 <= BigIntOfNumber(requestId).value < |old(db.swaps)|
      && old(db.swaps)[BigIntOfNumber(requestId).value].responderId == userId && parse(status).Some?
    ensures r.Success? ==>
      (var id := requestId.Floor;
       && db.swaps == old(db.swaps)[id := old(db.swaps)[id].(status := parse(status).value)]
       && r.value == ("Swap request " + status + " successfully.", db.swaps[id]))
  {
    var key := BigIntOfNumber(requestId);
    if key.None? {
      r := Failure(Rethrow(PlainError(rangeError), UpdateFallback, InternalServerError));
      return;
    }
    if !(0 <= key.value < |db.swaps|) {
      r := Failure(Rethrow(HttpFailure(NotFound, SwapNotFound), UpdateFallback, InternalServerError));
      return;
    }
    var s := db.swaps[key.value];
    if s.responderId != userId {
      r := Failure(Rethrow(HttpFailure(Forbidden, NotResponder), UpdateFallback, InternalServerError));
      return;
    }
    match parse(status)
    case None =>
      r := Failure(Rethrow(PlainError(clientError), UpdateFallback, InternalServerError));
    case Some(st) =>
      var updated := s.(status := st);
      db.swaps := db.swaps[key.value := updated];
      r := Success(("Swap request " + status + " successfully.", updated));
  }
}
