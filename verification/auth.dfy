/** The authentication middleware: the `Authorization: Bearer <token>` check
    of `verifyToken`, and the role gates built by `requireRole`. Token
    signature checking is a parameter (`verify`), since it is a call into the
    JWT library. */
module Auth {
  import opened Common

  const BearerPrefix: string := "Bearer "

  /** The 401 responses of `verifyToken`. */
  datatype AuthFailure = NoToken | InvalidToken {
    function Status(): int {
      401
    }

    function Message(): string {
      match this
      case NoToken => "Access denied. No token provided."
      case InvalidToken => "Invalid or expired token."
    }
  }

  /** Fields joined back with the separator between them. */
  function Join(fields: seq<string>, sep: char): string {
    if |fields| == 0 then ""
    else if |fields| == 1 then fields[0]
    else fields[0] + [sep] + Join(fields[1..], sep)
  }

  /** `s.split(sep)` for a one-character separator: the pieces between
      separators, including empty ones. */
  function Split(s: string, sep: char): (fields: seq<string>)
    ensures |fields| >= 1
    ensures Join(fields, sep) == s
    ensures forall i :: 0 <= i < |fields| ==> sep !in fields[i]
  {
    if |s| == 0 then [""]
    else
      var rest := Split(s[1..], sep);
      if s[0] == sep then
        assert Join([""] + rest, sep) == [sep] + Join(rest, sep) by {
          assert ([""] + rest)[1..] == rest;
        }
        assert s == [s[0]] + s[1..];
        [""] + rest
      else
        var fields := [[s[0]] + rest[0]] + rest[1..];
        assert fields[1..] == rest[1..];
        assert Join(fields, sep) == [s[0]] + Join(rest, sep);
        assert s == [s[0]] + s[1..];
        assert forall i :: 1 <= i < |fields| ==> fields[i] == rest[i];
        fields
  }

  /** A separator-free piece followed by the separator splits off as one field. */
  lemma {:induction false} SplitAfterField(f: string, t: string, sep: char)
    requires sep !in f
    ensures Split(f + [sep] + t, sep) == [f] + Split(t, sep)
  {
    if |f| == 0 {
      assert f + [sep] + t == [sep] + t;
      assert ([sep] + t)[1..] == t;
    } else {
      SplitAfterField(f[1..], t, sep);
      assert (f + [sep] + t)[1..] == f[1..] + [sep] + t;
      assert [f[0]] + f[1..] == f;
    }
  }

  /** A separator-free string is a single field. */
  lemma {:induction false} SplitWholeField(f: string, sep: char)
    requires sep !in f
    ensures Split(f, sep) == [f]
  {
    if |f| > 0 {
      SplitWholeField(f[1..], sep);
      assert [f[0]] + f[1..] == f;
    }
  }

  /** Splitting undoes joining separator-free fields: `Split` and `Join` are
      inverse on the fields `Split` can produce. */
  lemma {:induction false} SplitJoin(fields: seq<string>, sep: char)
    requires |fields| >= 1
    requires forall i :: 0 <= i < |fields| ==> sep !in fields[i]
    ensures Split(Join(fields, sep), sep) == fields
  {
    if |fields| == 1 {
      SplitWholeField(fields[0], sep);
    } else {
      SplitJoin(fields[1..], sep);
      SplitAfterField(fields[0], Join(fields[1..], sep), sep);
      assert [fields[0]] + fields[1..] == fields;
    }
  }

  /** `authHeader.split(' ')[1]`; absent (`undefined`) when there is no second field. */
  function TokenOf(header: string): Option<string> {
    var fields := Split(header, ' ');
    if |fields| > 1 then Some(fields[1]) else None
  }

  /** After the prefix check the token is the text after "Bearer " up to the
      next space; in particular a space-free token is extracted unchanged. */
  lemma TokenAfterBearer(rest: string)
    ensures TokenOf(BearerPrefix + rest) == Some(Split(rest, ' ')[0])
    ensures ' ' !in rest ==> TokenOf(BearerPrefix + rest) == Some(rest)
  {
    var word := "Bearer";
    assert ' ' !in word;
    var h := BearerPrefix + rest;
    assert h == word + [' '] + rest;
    SplitAfterField(word, rest, ' ');
    var fields := Split(h, ' ');
    assert fields == [word] + Split(rest, ' ');
    assert fields[1] == Split(rest, ' ')[0];
    if ' ' !in rest {
      SplitWholeField(rest, ' ');
    }
  }

  /** verifyToken: the decoded caller, or the 401 it responds with. */
  function VerifyToken(header: Option<string>, verify: string -> Option<Caller>): (r: Result<Caller, AuthFailure>)
    ensures r == Failure(NoToken) <==> header.None? || !(BearerPrefix <= header.value)
    ensures r.Success? ==>
      && header.Some? && BearerPrefix <= header.value
      && verify(Split(header.value[|BearerPrefix|..], ' ')[0]) == Some(r.value)
    ensures header.Some? && BearerPrefix <= header.value ==>
      var token := Split(header.value[|BearerPrefix|..], ' ')[0];
      && (verify(token).Some? ==> r == Success(verify(token).value))
      && (verify(token).None? ==> r == Failure(InvalidToken))
  {
    if header.None? || !(BearerPrefix <= header.value) then Failure(NoToken)
    else
      var h := header.value;
      assert h == BearerPrefix + h[|BearerPrefix|..];
      TokenAfterBearer(h[|BearerPrefix|..]);
      match TokenOf(h)
      case None => Failure(InvalidToken)
      case Some(token) =>
        match verify(token)
        case None => Failure(InvalidToken)
        case Some(caller) => Success(caller)
  }

  /** What a role gate does with a request. */
  datatype GateOutcome =
    | Next
    | Unauthenticated
    | Forbidden(required: seq<string>, current: string)
  {
    function Status(): int {
      match this
      case Next => 200
      case Unauthenticated => 401
      case Forbidden(_, _) => 403
    }

    function Message(): string {
      match this
      case Next => ""
      case Unauthenticated => "Authentication required."
      case Forbidden(_, _) => "Access denied. Insufficient permissions."
    }
  }

  /** requireRole(...roles). */
  function RequireRole(roles: seq<string>, user: Option<Caller>): (g: GateOutcome)
    ensures g == Next <==> user.Some? && user.value.role in roles
    ensures g == Unauthenticated <==> user.None?
    ensures g.Forbidden? <==> user.Some? && user.value.role !in roles
    ensures g.Forbidden? ==> g.required == roles && g.current == user.value.role
  {
    match user
    case None => Unauthenticated
    case Some(u) => if u.role in roles then Next else Forbidden(roles, u.role)
  }

  const AdminRoles: seq<string> := ["admin"]
  const AdminOrHRRoles: seq<string> := ["admin", "hr"]
  const ManagementRoles: seq<string> := ["admin", "hr", "manager"]

  function RequireAdmin(user: Option<Caller>): GateOutcome {
    RequireRole(AdminRoles, user)
  }

  function RequireAdminOrHR(user: Option<Caller>): GateOutcome {
    RequireRole(AdminOrHRRoles, user)
  }

  function RequireManagement(user: Option<Caller>): GateOutcome {
    RequireRole(ManagementRoles, user)
  }

  /** The three named gates admit exactly the roles {admin}, {admin, hr} and
      {admin, hr, manager}, and each admits everyone the previous one does. */
  lemma NamedGates(user: Option<Caller>)
    ensures RequireAdmin(user) == Next <==> user.Some? && user.value.role == "admin"
    ensures RequireAdminOrHR(user) == Next <==> user.Some? && user.value.role in {"admin", "hr"}
    ensures RequireManagement(user) == Next <==> user.Some? && user.value.role in {"admin", "hr", "manager"}
    ensures RequireAdmin(user) == Next ==> RequireAdminOrHR(user) == Next
    ensures RequireAdminOrHR(user) == Next ==> RequireManagement(user) == Next
  {
  }

  /** Why a guarded route did not reach its handler: `verifyToken` answered
      itself, or the role gate refused. */
  datatype GuardFailure =
    | TokenRejected(token: AuthFailure)
    | GateRejected(gate: GateOutcome)
  {
    function Status(): int {
      match this
      case TokenRejected(f) => f.Status()
      case GateRejected(g) => g.Status()
    }

    function Message(): string {
      match this
      case TokenRejected(f) => f.Message()
      case GateRejected(g) => g.Message()
    }
  }

  /** A route guarded by `verifyToken` and then a role gate: a token failure
      is answered by `verifyToken` and the gate never runs. */
  function Guard(header: Option<string>, verify: string -> Option<Caller>, roles: seq<string>): Result<Caller, GuardFailure> {
    match VerifyToken(header, verify)
    case Failure(f) => Failure(TokenRejected(f))
    case Success(caller) =>
      var g := RequireRole(roles, Some(caller));
      if g == Next then Success(caller) else Failure(GateRejected(g))
  }

  /** Behind `verifyToken` a gate always sees a user, so its own 401
      ("Authentication required.") never reaches the client: every 401 is the
      token check's own answer, every gate refusal is a 403 naming the caller's
      role, and the handler runs exactly for a verified caller whose role is
      allowed. */
  lemma GuardOutcomes(header: Option<string>, verify: string -> Option<Caller>, roles: seq<string>)
    ensures var g := Guard(header, verify, roles);
      var v := VerifyToken(header, verify);
      && (g.Success? <==> v.Success? && v.value.role in roles)
      && (g.Success? ==> g.value == v.value)
      && (v.Failure? ==> g == Failure(TokenRejected(v.error)))
      && (g.Failure? && g.error.TokenRejected? <==> v.Failure?)
      && (g.Failure? && g.error.GateRejected? <==> v.Success? && v.value.role !in roles)
      && (g.Failure? && g.error.GateRejected? ==> g.error.gate == Forbidden(roles, v.value.role))
      && g != Failure(GateRejected(Unauthenticated))
      && (g.Failure? && g.error.Status() == 401 <==> v.Failure?)
  {
  }
}
