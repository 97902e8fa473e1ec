/** Password resets: an employee asks for a reset by email, management
    approves (setting a new or default password) or rejects it. The state is
    the account table together with the table of reset requests keyed by id.
    Password hashing is a parameter, since it is a call into bcrypt. */
module PasswordReset {
  import opened Common

  type ResetId = string

  /** The password an approval sets when no new one is given. */
  const DefaultPassword := "user123"

  /** The columns of a user account this model needs. */
  datatype Account = Account(id: UserId, email: string, passwordHash: string)

  /** One row of the reset table. */
  datatype Reset = Reset(userId: UserId, status: string, approvedBy: Option<UserId>, approvedAt: Option<int>)

  type Resets = map<ResetId, Reset>

  /** Both tables the routes touch. */
  datatype ResetState = ResetState(accounts: seq<Account>, resets: Resets)

  /** The rejections of the reset routes. */
  datatype ResetError =
    | EmailNotFound
    | AlreadyPending
    | RequestFailed
    | RequestNotFound
    | ProcessFailed
    | InvalidStatus
  {
    function Status(): int {
      match this
      case EmailNotFound => 404
      case AlreadyPending => 400
      case RequestFailed => 500
      case RequestNotFound => 404
      case ProcessFailed => 500
      case InvalidStatus => 400
    }

    function Message(): string {
      match this
      case EmailNotFound => "Email not found"
      case AlreadyPending => "Password reset already pending approval"
      case RequestFailed => "Failed to submit request"
      case RequestNotFound => "Request not found"
      case ProcessFailed => "Failed to process request"
      case InvalidStatus => "Invalid status"
    }
  }

  /** The position of the first account satisfying `p`. */
  function FindAccount(accounts: seq<Account>, p: Account -> bool): (r: Option<nat>)
    ensures r.Some? ==> r.value < |accounts| && p(accounts[r.value])
    ensures r.Some? ==> forall j :: 0 <= j < r.value ==> !p(accounts[j])
    ensures r.None? <==> forall j :: 0 <= j < |accounts| ==> !p(accounts[j])
  {
    if |accounts| == 0 then None
    else if p(accounts[0]) then Some(0)
    else match FindAccount(accounts[1..], p)
      case None => None
      case Some(i) => Some(i + 1)
  }

  /** The account lookups of the two routes: by email, and by the reset's user id. */
  function ByEmail(email: string): Account -> bool {
    (a: Account) => a.email == email
  }

  function ById(id: UserId): Account -> bool {
    (a: Account) => a.id == id
  }

  /** Whether `user` has a reset awaiting approval: the `findFirst` of the request route. */
  predicate HasPending(resets: Resets, user: UserId) {
    exists k :: k in resets && resets[k].userId == user && resets[k].status == Pending
  }

  /** No user has two resets awaiting approval. */
  predicate AtMostOnePending(resets: Resets) {
    forall a, b ::
      (a in resets && b in resets && resets[a].userId == resets[b].userId
       && resets[a].status == Pending && resets[b].status == Pending) ==> a == b
  }

  /** POST /request. `email` is absent when the body has none, which the
      account lookup refuses (a 500); `id` is the identifier the database
      assigns the new reset, and a taken id makes the insert fail. */
  function RequestReset(s: ResetState, email: Option<string>, id: ResetId): (r: Result<ResetState, ResetError>)
    ensures email.None? ==> r == Failure(RequestFailed)
    ensures email.Some? && FindAccount(s.accounts, ByEmail(email.value)).None? ==> r == Failure(EmailNotFound)
    ensures r.Success? <==>
      && email.Some?
      && FindAccount(s.accounts, ByEmail(email.value)).Some?
      && !HasPending(s.resets, s.accounts[FindAccount(s.accounts, ByEmail(email.value)).value].id)
      && id !in s.resets
    ensures email.Some? && FindAccount(s.accounts, ByEmail(email.value)).Some? ==>
      (r == Failure(AlreadyPending) <==>
       HasPending(s.resets, s.accounts[FindAccount(s.accounts, ByEmail(email.value)).value].id))
    ensures r.Success? ==>
      var user := s.accounts[FindAccount(s.accounts, ByEmail(email.value)).value];
      && user.email == email.value
      && r.value == s.(resets := s.resets[id := Reset(user.id, Pending, None, None)])
  {
    if email.None? then Failure(RequestFailed)
    else match FindAccount(s.accounts, ByEmail(email.value))
      case None => Failure(EmailNotFound)
      case Some(i) =>
        var user := s.accounts[i];
        if HasPending(s.resets, user.id) then Failure(AlreadyPending)
        else if id in s.resets then Failure(RequestFailed)
        else Success(s.(resets := s.resets[id := Reset(user.id, Pending, None, None)]))
  }

  /** A request never gives a user a second pending reset. */
  lemma RequestResetKeepsOnePending(s: ResetState, email: Option<string>, id: ResetId)
    requires AtMostOnePending(s.resets)
    requires RequestReset(s, email, id).Success?
    ensures AtMostOnePending(RequestReset(s, email, id).value.resets)
  {
    var after := RequestReset(s, email, id).value.resets;
    var user := s.accounts[FindAccount(s.accounts, ByEmail(email.value)).value].id;
    assert after == s.resets[id := Reset(user, Pending, None, None)];
    assert forall k :: k in s.resets && s.resets[k].userId == user ==> s.resets[k].status != Pending;
  }

  /** Asking twice with the same email: the second request is refused while
      the first is pending. */
  lemma SecondRequestRefused(s: ResetState, email: Option<string>, id: ResetId, id2: ResetId)
    requires RequestReset(s, email, id).Success?
    ensures RequestReset(RequestReset(s, email, id).value, email, id2) == Failure(AlreadyPending)
  {
    var s1 := RequestReset(s, email, id).value;
    var user := s.accounts[FindAccount(s.accounts, ByEmail(email.value)).value].id;
    assert s1.resets[id].userId == user && s1.resets[id].status == Pending;
    assert HasPending(s1.resets, user);
  }

  /** The password an approval installs, before hashing. */
  function NewPasswordOrDefault(newPassword: Option<string>): (p: string)
    ensures Truthy(newPassword) ==> p == newPassword.value
    ensures !Truthy(newPassword) ==> p == DefaultPassword
  {
    if Truthy(newPassword) then newPassword.value else DefaultPassword
  }

  /** The reset row after review: the status is written only when one was
      sent (an absent field leaves the column alone), and the reviewer and
      time are always recorded. */
  function Reviewed(r: Reset, caller: Caller, status: Option<string>, now: int): Reset {
    r.(status := status.GetOr(r.status), approvedBy := Some(caller.id), approvedAt := Some(now))
  }

  /** PUT /:id (behind `requireManagement`), as written: any status value is
      stored, and the password changes only for "approved". The account of a
      reset whose user no longer exists cannot be updated, which the route
      reports as a 500. */
  function ReviewReset(s: ResetState, caller: Caller, id: ResetId, status: Option<string>, newPassword: Option<string>,
                       now: int, hash: string -> string): (r: Result<ResetState, ResetError>)
    ensures id !in s.resets ==> r == Failure(RequestNotFound)
    ensures id in s.resets && status != Some(Approved) ==> r.Success?
    ensures r.Success? ==> id in s.resets && r.value.resets == s.resets[id := Reviewed(s.resets[id], caller, status, now)]
    ensures r.Success? && status != Some(Approved) ==> r.value.accounts == s.accounts
    ensures r.Success? && status == Some(Approved) ==>
      var i := FindAccount(s.accounts, ById(s.resets[id].userId));
      && i.Some?
      && r.value.accounts == s.accounts[i.value := s.accounts[i.value].(passwordHash := hash(NewPasswordOrDefault(newPassword)))]
    ensures r.Failure? && id in s.resets ==>
      r.error == ProcessFailed && status == Some(Approved)
      && FindAccount(s.accounts, ById(s.resets[id].userId)).None?
  {
    if id !in s.resets then Failure(RequestNotFound)
    else
      var reset := s.resets[id];
      var accounts :=
        if status == Some(Approved) then
          match FindAccount(s.accounts, ById(reset.userId))
          case None => None
          case Some(i) => Some(s.accounts[i := s.accounts[i].(passwordHash := hash(NewPasswordOrDefault(newPassword)))])
        else Some(s.accounts);
      match accounts
      case None => Failure(ProcessFailed)
      case Some(acc) => Success(ResetState(acc, s.resets[id := Reviewed(reset, caller, status, now)]))
  }

  /** The review as written can leave a user with two pending resets: re-review
      an old, approved reset with status "pending" after the user has asked
      again. */
  lemma ReviewCanBreakOnePending()
    ensures var s := ResetState([Account("u", "u@example.com", "h0")],
                                map["r1" := Reset("u", Approved, Some("m"), Some(0)), "r2" := Reset("u", Pending, None, None)]);
      && AtMostOnePending(s.resets)
      && ReviewReset(s, Caller("m", "manager"), "r1", Some(Pending), None, 1, (p: string) => p).Success?
      && !AtMostOnePending(ReviewReset(s, Caller("m", "manager"), "r1", Some(Pending), None, 1, (p: string) => p).value.resets)
  {
    var s := ResetState([Account("u", "u@example.com", "h0")],
                        map["r1" := Reset("u", Approved, Some("m"), Some(0)), "r2" := Reset("u", Pending, None, None)]);
    assert "r1" != "r2";
    var after := ReviewReset(s, Caller("m", "manager"), "r1", Some(Pending), None, 1, (p: string) => p).value.resets;
    assert after["r1"].status == Pending && after["r2"].status == Pending;
    assert after["r1"].userId == after["r2"].userId;
  }

  /** The review as evidently intended (the route's own comment names the two
      outcomes, and the leave review validates the same pair): any other status
      is refused with a 400 before anything is written. */
  function ReviewResetValidated(s: ResetState, caller: Caller, id: ResetId, status: Option<string>, newPassword: Option<string>,
                                now: int, hash: string -> string): (r: Result<ResetState, ResetError>)
    ensures !ValidReviewStatus(status) ==> r == Failure(InvalidStatus)
    ensures ValidReviewStatus(status) ==> r == ReviewReset(s, caller, id, status, newPassword, now, hash)
    ensures r.Success? ==> r.value.resets[id].status in {Approved, Rejected}
  {
    if !ValidReviewStatus(status) then Failure(InvalidStatus)
    else ReviewReset(s, caller, id, status, newPassword, now, hash)
  }

  /** With the status validated, a review never gives a user a second pending
      reset; together with `RequestResetKeepsOnePending` every route keeps
      `AtMostOnePending`. */
  lemma ReviewValidatedKeepsOnePending(s: ResetState, caller: Caller, id: ResetId, status: Option<string>,
                                       newPassword: Option<string>, now: int, hash: string -> string)
    requires AtMostOnePending(s.resets)
    requires ReviewResetValidated(s, caller, id, status, newPassword, now, hash).Success?
    ensures AtMostOnePending(ReviewResetValidated(s, caller, id, status, newPassword, now, hash).value.resets)
  {
    var after := ReviewResetValidated(s, caller, id, status, newPassword, now, hash).value.resets;
    assert after == s.resets[id := Reviewed(s.resets[id], caller, status, now)];
    forall a, b | a in after && b in after && after[a].userId == after[b].userId
        && after[a].status == Pending && after[b].status == Pending
      ensures a == b
    {
      assert a != id && b != id;
      assert s.resets[a] == after[a] && s.resets[b] == after[b];
    }
  }

  /** Once a user's pending reset is reviewed (approved or rejected), the user
      may ask again. */
  lemma RequestAgainAfterReview(s: ResetState, email: Option<string>, id: ResetId, s1: ResetState,
                                caller: Caller, status: Option<string>, newPassword: Option<string>, now: int,
                                hash: string -> string, s2: ResetState, id2: ResetId)
    requires RequestReset(s, email, id) == Success(s1)
    requires ReviewResetValidated(s1, caller, id, status, newPassword, now, hash) == Success(s2)
    requires id2 != id && id2 !in s.resets
    ensures RequestReset(s2, email, id2).Success?
  {
    var find := FindAccount(s.accounts, ByEmail(email.value));
    var user := s.accounts[find.value].id;
    assert s1.resets == s.resets[id := Reset(user, Pending, None, None)];
    ValidatedReviewSettles(s1, caller, id, status, newPassword, now, hash, s2);
    SamePositionsSameEmails(s.accounts, s2.accounts, email.value);
    NoPendingAfterSettling(s.resets, s2.resets, id, user);
  }

  /** Settling the only reset that was added back to a user with none pending
      leaves the user with none pending. */
  lemma NoPendingAfterSettling(before: Resets, after: Resets, id: ResetId, user: UserId)
    requires !HasPending(before, user)
    requires after.Keys == before.Keys + {id}
    requires after[id].status != Pending
    requires forall k :: k in before && k != id ==> after[k] == before[k]
    ensures !HasPending(after, user)
  {
  }

  /** A validated review leaves the reviewed reset settled, every other reset
      as it was, and every account at its position with its id and email. */
  lemma ValidatedReviewSettles(s: ResetState, caller: Caller, id: ResetId, status: Option<string>, newPassword: Option<string>,
                               now: int, hash: string -> string, s2: ResetState)
    requires ReviewResetValidated(s, caller, id, status, newPassword, now, hash) == Success(s2)
    ensures s2.resets.Keys == s.resets.Keys
    ensures s2.resets[id].status != Pending
    ensures forall k :: k in s.resets && k != id ==> s2.resets[k] == s.resets[k]
    ensures |s2.accounts| == |s.accounts|
    ensures forall i :: 0 <= i < |s.accounts| ==> s2.accounts[i].email == s.accounts[i].email && s2.accounts[i].id == s.accounts[i].id
  {
  }

  /** An approval touches only a password, so every account keeps its email
      and the email lookup finds the same position. */
  lemma {:induction false} SamePositionsSameEmails(a: seq<Account>, b: seq<Account>, email: string)
    requires |a| == |b|
    requires forall i :: 0 <= i < |a| ==> a[i].email == b[i].email
    ensures FindAccount(b, ByEmail(email)) == FindAccount(a, ByEmail(email))
  {
    if |a| > 0 {
      SamePositionsSameEmails(a[1..], b[1..], email);
    }
  }

  /** GET /pending: the resets awaiting approval, in the order the store
      lists them (`orderBy: { createdAt: 'desc' }`). */
  function PendingResets(ordered: seq<Reset>): (r: seq<Reset>)
    ensures forall x :: x in r <==> x in ordered && x.status == Pending
    ensures IsSubsequence(r, ordered)
    ensures forall x :: multiset(r)[x] == if x.status == Pending then multiset(ordered)[x] else 0
  {
    Filter(ordered, (x: Reset) => x.status == Pending)
  }
}
