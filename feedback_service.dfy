/** The feedback service: a member rates another member, and anyone reads the
    feedback a member has received, newest first. */
module FeedbackService {
  import opened Common
  import opened Store

  const CreateFallback := "Failed to create feedback"
  const FetchFallback := "Failed to fetch feedbacks"

  /** The request body. The validation pipe has already checked that both
      numbers are integers and that the rating lies in 1..5. */
  datatype CreateFeedbackDto = CreateFeedbackDto(revieweeId: int, rating: int, feedback: string)

  /** The row `swapFeedback.create` returns, with its new id. */
  datatype FeedbackRow = FeedbackRow(id: nat, reviewerId: UserId, revieweeId: UserId, rating: int, feedback: string)

  /** The reviewer as the listing includes it: only id, name and email. */
  datatype ReviewerView = ReviewerView(id: UserId, name: string, email: string)

  /** A listed feedback row: the row with its three ids turned to decimal
      strings, plus the reviewer. */
  datatype FeedbackView = FeedbackView(
    id: string,
    reviewerId: string,
    revieweeId: string,
    rating: int,
    feedback: string,
    reviewer: ReviewerView)

  // ------------------------------------------------------------------- create

  /** `create`: insert the row, with the caller as reviewer. Both ids are
      foreign keys to users, so an unknown (or negative) id makes the insert
      fail; whatever the failure, the caller sees only the generic 500. */
  method Create(db: Db, dto: CreateFeedbackDto, reviewerId: UserId) returns (r: Result<FeedbackRow, Failure>)
    requires db.Valid()
    requires 1 <= dto.rating <= 5
    modifies db
    ensures db.Valid()
    ensures r.Success? <==> reviewerId < |old(db.users)| && 0 <= dto.revieweeId < |old(db.users)|
    ensures r.Failure? ==> r.error == HttpFailure(InternalServerError, CreateFallback) && unchanged(db)
    ensures r.Success? ==>
      && r.value == FeedbackRow(|old(db.feedback)|, reviewerId, dto.revieweeId, dto.rating, dto.feedback)
      && db.feedback == old(db.feedback) + [Feedback(reviewerId, dto.revieweeId, dto.rating, dto.feedback)]
      && db.users == old(db.users) && db.skills == old(db.skills)
      && db.offered == old(db.offered) && db.wanted == old(db.wanted)
      && db.otps == old(db.otps) && db.swaps == old(db.swaps) && db.outbox == old(db.outbox)
  {
    if reviewerId >= |db.users| || dto.revieweeId < 0 || dto.revieweeId >= |db.users| {
      r := Failure(HttpFailure(InternalServerError, CreateFallback));
      return;
    }
    var id := |db.feedback|;
    db.feedback := db.feedback + [Feedback(reviewerId, dto.revieweeId, dto.rating, dto.feedback)];
    r := Success(FeedbackRow(id, reviewerId, dto.revieweeId, dto.rating, dto.feedback));
  }

  // ------------------------------------------------------------------ listing

  /** The ids below `n` of the rows a member received, newest first. */
  function ReceivedBelow(feedback: seq<Feedback>, userId: int, n: nat): (r: seq<nat>)
    requires n <= |feedback|
    ensures forall k :: 0 <= k < |r| ==> r[k] < n && feedback[r[k]].revieweeId == userId
    ensures forall i :: 0 <= i < n && feedback[i].revieweeId == userId ==> i in r
    ensures forall j, k :: 0 <= j < k < |r| ==> r[j] > r[k]
  {
    if n == 0 then []
    else if feedback[n - 1].revieweeId == userId then [n - 1] + ReceivedBelow(feedback, userId, n - 1)
    else ReceivedBelow(feedback, userId, n - 1)
  }

  /** The ids of the rows a member received, newest first. */
  function Received(feedback: seq<Feedback>, userId: int): (r: seq<nat>)
    ensures forall k :: 0 <= k < |r| ==> r[k] < |feedback| && feedback[r[k]].revieweeId == userId
    ensures forall i :: 0 <= i < |feedback| && feedback[i].revieweeId == userId ==> i in r
    ensures forall j, k :: 0 <= j < k < |r| ==> r[j] > r[k]
  {
    ReceivedBelow(feedback, userId, |feedback|)
  }

  /** Appending a row does not change which older rows a member received. */
  lemma {:induction false} ReceivedBelowAppend(feedback: seq<Feedback>, f: Feedback, userId: int, n: nat)
    requires n <= |feedback|
    ensures ReceivedBelow(feedback + [f], userId, n) == ReceivedBelow(feedback, userId, n)
  {
    if n > 0 {
      assert (feedback + [f])[n - 1] == feedback[n - 1];
      ReceivedBelowAppend(feedback, f, userId, n - 1);
    }
  }

  function ViewOf(users: seq<User>, feedback: seq<Feedback>, i: nat): (r: FeedbackView)
    requires FeedbackValid(feedback, users) && i < |feedback|
    ensures r.id == NatToString(i) && r.reviewer.id == feedback[i].reviewerId
  {
    var f := feedback[i];
    var reviewer := users[f.reviewerId];
    FeedbackView(NatToString(i), NatToString(f.reviewerId), NatToString(f.revieweeId), f.rating, f.text,
                 ReviewerView(f.reviewerId, reviewer.name, reviewer.email))
  }

  function Views(users: seq<User>, feedback: seq<Feedback>, ids: seq<nat>): (r: seq<FeedbackView>)
    requires FeedbackValid(feedback, users)
    requires forall k :: 0 <= k < |ids| ==> ids[k] < |feedback|
    ensures |r| == |ids|
    ensures forall k :: 0 <= k < |ids| ==> r[k] == ViewOf(users, feedback, ids[k])
  {
    seq(|ids|, k requires 0 <= k < |ids| => ViewOf(users, feedback, ids[k]))
  }

  /** `getAllForUser`: every row whose reviewee is the given id, newest
      first, with no pagination. `clientError` is the database client's
      error when the read itself fails; the caller sees only the generic
      500 whatever it was. */
  function GetAllForUser(users: seq<User>, feedback: seq<Feedback>, userId: int, clientError: Option<string>)
    : (r: Result<seq<FeedbackView>, Failure>)
    requires FeedbackValid(feedback, users)
    ensures r.Failure? <==> clientError.Some?
    ensures r.Failure? ==> r.error == HttpFailure(InternalServerError, FetchFallback)
    ensures r.Success? ==> |r.value| == |Received(feedback, userId)|
  {
    if clientError.Some? then Failure(HttpFailure(InternalServerError, FetchFallback))
    else Success(Views(users, feedback, Received(feedback, userId)))
  }

  /** Every listed row was received by the member; its ids are the row's ids
      in decimal, and rating, text and reviewer pass through unchanged. */
  lemma ListedFeedbackReceived(users: seq<User>, feedback: seq<Feedback>, userId: int)
    requires FeedbackValid(feedback, users)
    ensures var data := GetAllForUser(users, feedback, userId, None).value;
      forall k :: 0 <= k < |data| ==>
        var i := ParseDecimal(data[k].id);
        && i < |feedback|
        && data[k].id == NatToString(i)
        && feedback[i].revieweeId == userId
        && data[k].revieweeId == IntToString(userId)
        && data[k].reviewerId == NatToString(feedback[i].reviewerId)
        && data[k].rating == feedback[i].rating
        && data[k].feedback == feedback[i].text
        && data[k].reviewer == ReviewerView(feedback[i].reviewerId, users[feedback[i].reviewerId].name,
                                            users[feedback[i].reviewerId].email)
  {
    var ids := Received(feedback, userId);
    var data := GetAllForUser(users, feedback, userId, None).value;
    forall k | 0 <= k < |data| ensures ParseDecimal(data[k].id) == ids[k] {
      ParseNatToString(ids[k]);
    }
  }

  /** Every row the member received is listed. */
  lemma ListedFeedbackComplete(users: seq<User>, feedback: seq<Feedback>, userId: int, i: nat)
    requires FeedbackValid(feedback, users)
    requires i < |feedback| && feedback[i].revieweeId == userId
    ensures var data := GetAllForUser(users, feedback, userId, None).value;
      exists k :: 0 <= k < |data| && data[k].id == NatToString(i)
  {
    var ids := Received(feedback, userId);
    var data := GetAllForUser(users, feedback, userId, None).value;
    var k :| 0 <= k < |ids| && ids[k] == i;
    assert data[k].id == NatToString(i);
  }

  /** The listing runs newest first. */
  lemma ListedFeedbackNewestFirst(users: seq<User>, feedback: seq<Feedback>, userId: int)
    requires FeedbackValid(feedback, users)
    ensures var data := GetAllForUser(users, feedback, userId, None).value;
      forall j, k :: 0 <= j < k < |data| ==> ParseDecimal(data[j].id) > ParseDecimal(data[k].id)
  {
    var ids := Received(feedback, userId);
    var data := GetAllForUser(users, feedback, userId, None).value;
    forall k | 0 <= k < |data| ensures ParseDecimal(data[k].id) == ids[k] {
      ParseNatToString(ids[k]);
    }
  }

  /** A created row becomes the newest row its reviewee received. */
  lemma ReceivedAfterCreate(feedback: seq<Feedback>, f: Feedback, userId: int)
    ensures Received(feedback + [f], userId)
         == (if f.revieweeId == userId then [|feedback|] else []) + Received(feedback, userId)
  {
    ReceivedBelowAppend(feedback, f, userId, |feedback|);
  }

  /** Appending a row leaves the views of the older rows as they were. */
  lemma ViewsAfterCreate(users: seq<User>, feedback: seq<Feedback>, f: Feedback, ids: seq<nat>)
    requires FeedbackValid(feedback, users) && FeedbackValid(feedback + [f], users)
    requires forall k :: 0 <= k < |ids| ==> ids[k] < |feedback|
    ensures Views(users, feedback + [f], ids) == Views(users, feedback, ids)
  {
    forall k | 0 <= k < |ids| ensures ViewOf(users, feedback + [f], ids[k]) == ViewOf(users, feedback, ids[k]) {
      assert (feedback + [f])[ids[k]] == feedback[ids[k]];
    }
  }

  /** Appending a row whose two ids are users keeps the foreign keys valid. */
  lemma FeedbackValidAfterCreate(users: seq<User>, feedback: seq<Feedback>, f: Feedback)
    requires FeedbackValid(feedback, users)
    requires f.reviewerId < |users| && f.revieweeId < |users|
    ensures FeedbackValid(feedback + [f], users)
  {
    var grown := feedback + [f];
    forall k | 0 <= k < |grown| ensures grown[k].reviewerId < |users| && grown[k].revieweeId < |users| {
      if k < |feedback| { assert grown[k] == feedback[k]; }
    }
  }

  /** A created row heads its reviewee's listing, above what was listed
      before; other members' listings do not change. */
  lemma ListingAfterCreate(users: seq<User>, feedback: seq<Feedback>, f: Feedback, userId: int)
    requires FeedbackValid(feedback, users)
    requires f.reviewerId < |users| && f.revieweeId < |users|
    ensures FeedbackValid(feedback + [f], users)
    ensures var before := GetAllForUser(users, feedback, userId, None).value;
      var after := GetAllForUser(users, feedback + [f], userId, None).value;
      after == (if f.revieweeId == userId then [ViewOf(users, feedback + [f], |feedback|)] else []) + before
  {
    var grown := feedback + [f];
    FeedbackValidAfterCreate(users, feedback, f);
    var older := Received(feedback, userId);
    ReceivedAfterCreate(feedback, f, userId);
    ViewsAfterCreate(users, feedback, f, older);
    assert GetAllForUser(users, feedback, userId, None).value == Views(users, feedback, older);
    assert GetAllForUser(users, grown, userId, None).value == Views(users, grown, Received(grown, userId));
    if f.revieweeId == userId {
      ViewsCons(users, grown, |feedback|, older);
    } else {
      assert Received(grown, userId) == older;
    }
  }

  /** The views of an id list headed by `id` are the view of `id` followed
      by the views of the rest. */
  lemma ViewsCons(users: seq<User>, feedback: seq<Feedback>, id: nat, ids: seq<nat>)
    requires FeedbackValid(feedback, users)
    requires id < |feedback| && forall k :: 0 <= k < |ids| ==> ids[k] < |feedback|
    ensures Views(users, feedback, [id] + ids) == [ViewOf(users, feedback, id)] + Views(users, feedback, ids)
  {
    var all := [id] + ids;
    assert forall k :: 0 <= k < |ids| ==> all[k + 1] == ids[k];
  }
}
