/** Tokens as claim lists: how they are issued, how both entry paths read them, and what they decide. */
module Claims {
  import opened Common
  import opened Domain
  import opened GrainModel
  import opened AccessLog
  import opened Utf16

  datatype ClaimType = Jti | Name | NameIdentifier | UserData | Role | Other(name: string)

  datatype Claim = Claim(kind: ClaimType, value: string)

  /** The value of the first claim of a type. */
  function FirstValue(claims: seq<Claim>, kind: ClaimType): Option<string> {
    if claims == [] then None
    else if claims[0].kind == kind then Some(claims[0].value)
    else FirstValue(claims[1..], kind)
  }

  /** The values of all claims of a type, in order. */
  function Values(claims: seq<Claim>, kind: ClaimType): seq<string> {
    if claims == [] then []
    else (if claims[0].kind == kind then [claims[0].value] else []) + Values(claims[1..], kind)
  }

  lemma {:induction false} ValuesOfConcat(a: seq<Claim>, b: seq<Claim>, kind: ClaimType)
    ensures Values(a + b, kind) == Values(a, kind) + Values(b, kind)
  {
    if a == [] {
      assert a + b == b;
    } else {
      ValuesOfConcat(a[1..], b, kind);
      assert (a + b)[0] == a[0] && (a + b)[1..] == a[1..] + b;
      ConcatAssoc(if a[0].kind == kind then [a[0].value] else [], Values(a[1..], kind), Values(b, kind));
    }
  }

  /** The two readers agree: the first value is the head of all values. */
  lemma {:induction false} FirstValueIsHead(claims: seq<Claim>, kind: ClaimType)
    ensures FirstValue(claims, kind) ==
            if Values(claims, kind) == [] then None else Some(Values(claims, kind)[0])
  {
    if claims != [] {
      FirstValueIsHead(claims[1..], kind);
    }
  }

  /** The values of a list of four claims. */
  lemma {:induction false} FixedValues(claims: seq<Claim>)
    requires |claims| == 4
    requires claims[0].kind.Jti? && claims[1].kind.Name? && claims[2].kind.NameIdentifier? && claims[3].kind.UserData?
    ensures Values(claims, UserData) == [claims[3].value] && Values(claims, Role) == []
  {
    LastOfFour(claims, UserData);
    LastOfFour(claims, Role);
    assert [claims[3]][1..] == [];
    assert Values([claims[3]], UserData) == [claims[3].value] && Values([claims[3]], Role) == [];
  }

  lemma {:induction false} LastOfFour(claims: seq<Claim>, kind: ClaimType)
    requires |claims| == 4 && claims[0].kind != kind && claims[1].kind != kind && claims[2].kind != kind
    ensures Values(claims, kind) == Values([claims[3]], kind)
  {
    assert claims == [claims[0]] + ([claims[1]] + ([claims[2]] + [claims[3]]));
    SkipClaim(claims[0], [claims[1]] + ([claims[2]] + [claims[3]]), kind);
    SkipClaim(claims[1], [claims[2]] + [claims[3]], kind);
    SkipClaim(claims[2], [claims[3]], kind);
  }

  lemma {:induction false} SkipClaim(c: Claim, claims: seq<Claim>, kind: ClaimType)
    requires c.kind != kind
    ensures Values([c] + claims, kind) == Values(claims, kind)
  {
    assert ([c] + claims)[1..] == claims;
  }

  /** Build the claim list of a token: four fixed claims, then one per role. */
  method IssueClaims(jti: string, userName: string, userId: string, roles: seq<string>)
    returns (claims: seq<Claim>)
    ensures FirstValue(claims, UserData) == Some(userId)
    ensures Values(claims, UserData) == [userId]
    ensures Values(claims, Role) == roles
    ensures |claims| == 4 + |roles|
  {
    claims := [Claim(Jti, jti), Claim(Name, userName), Claim(NameIdentifier, userName), Claim(UserData, userId)];
    FixedValues(claims);
    for i := 0 to |roles|
      invariant |claims| == 4 + i
      invariant Values(claims, UserData) == [userId]
      invariant Values(claims, Role) == roles[..i]
    {
      ValuesOfConcat(claims, [Claim(Role, roles[i])], UserData);
      ValuesOfConcat(claims, [Claim(Role, roles[i])], Role);
      claims := claims + [Claim(Role, roles[i])];
    }
    FirstValueIsHead(claims, UserData);
  }

  /**
   * A token as the server reads it back: serialising may add and move claims, but keeps the user id
   * and the roles, the latter in order.
   */
  predicate Carries(token: seq<Claim>, userId: string, roles: seq<string>) {
    Values(token, UserData) == [userId] && Values(token, Role) == roles
  }

  // ------------------------------------------------------------------------------------------
  // The two entry paths

  /** .NET white space. */
  predicate IsWhiteSpace(c: char) {
    || '\U{9}' <= c <= '\U{D}' || c == ' ' || c == '\U{85}' || c == '\U{A0}' || c == '\U{1680}'
    || '\U{2000}' <= c <= '\U{200A}' || c == '\U{2028}' || c == '\U{2029}' || c == '\U{202F}'
    || c == '\U{205F}' || c == '\U{3000}'
  }

  predicate IsBlank(s: string) {
    forall c :: c in s ==> IsWhiteSpace(c)
  }

  /** The HTTP action: an invalid body is refused before any grain is called. */
  function HttpRequest(id: string, user: seq<Claim>, employeeId: Option<string>, now: int): Option<Step> {
    if employeeId.None? || IsBlank(employeeId.value) || Units(employeeId.value) > 64 then None
    else Some(Request(id, FirstValue(user, UserData), Values(user, Role), employeeId, now))
  }

  /** The characters that .NET calls white space. */
  const DOT_NET_SPACES: set<char> := {
    '\U{9}', '\U{A}', '\U{B}', '\U{C}', '\U{D}', '\U{20}', '\U{85}', '\U{A0}', '\U{1680}',
    '\U{2000}', '\U{2001}', '\U{2002}', '\U{2003}', '\U{2004}', '\U{2005}', '\U{2006}', '\U{2007}',
    '\U{2008}', '\U{2009}', '\U{200A}', '\U{2028}', '\U{2029}', '\U{202F}', '\U{205F}', '\U{3000}'}

  /** A body is accepted exactly if its employee id has a character other than white space and at most 64 units. */
  lemma HttpRequestIsMadeIff(id: string, user: seq<Claim>, userId: string, roles: seq<string>,
                             employeeId: Option<string>, now: int)
    requires Values(user, UserData) == [userId] && Values(user, Role) == roles
    ensures HttpRequest(id, user, employeeId, now) ==
            if && employeeId.Some? && (exists c :: c in employeeId.value && c !in DOT_NET_SPACES)
               && |Encode(employeeId.value)| <= 64
            then Some(Request(id, Some(userId), roles, employeeId, now)) else None
  {
    FirstValueIsHead(user, UserData);
    DotNetSpaces();
  }

  lemma DotNetSpaces()
    ensures forall c :: IsWhiteSpace(c) <==> c in DOT_NET_SPACES
  {
  }

  /** A value is read under a type exactly if the token has that claim. */
  lemma {:induction false} ValuesAreTheClaims(claims: seq<Claim>, kind: ClaimType, value: string)
    ensures value in Values(claims, kind) <==> Claim(kind, value) in claims
  {
    if claims != [] {
      ValuesAreTheClaims(claims[1..], kind, value);
      assert claims == [claims[0]] + claims[1..];
    }
  }

  /** The MQTT path: a readable token from a lock becomes a request to the grain of that lock. */
  function MqttRequest(lockId: string, token: seq<Claim>, now: int): Step {
    Request(lockId, FirstValue(token, UserData), Values(token, Role), None, now)
  }

  /** The lock a grain decides by is the one in the database at its activation, whatever is edited meanwhile. */
  lemma {:induction false} CacheIsFromActivation(s: State, before: seq<Step>, during: seq<Step>, id: string)
    requires IsRun(s, before) && Enabled(Exec(s, before), Activate(id))
    requires IsRun(Next(Exec(s, before), Activate(id)), during) && Deactivate(id) !in during
    ensures var t, locks := Exec(Next(Exec(s, before), Activate(id)), during), Exec(s, before).locks;
      id in t.live && t.live[id].grain.cached == if id in locks then Some(Lock(id, locks[id])) else None
  {
    if during != [] {
      assert Deactivate(id) !in Front(during) && Last(during) in during;
      CacheIsFromActivation(s, before, Front(during), id);
      StepKeepsCache(Exec(Next(Exec(s, before), Activate(id)), Front(during)), Last(during), id);
    }
  }

  lemma {:induction false} StepKeepsCache(s: State, step: Step, id: string)
    requires Enabled(s, step) && id in s.live && step != Deactivate(id)
    ensures id in Next(s, step).live && Next(s, step).live[id].grain.cached == s.live[id].grain.cached
  {
  }

  /**
   * From database and token to log, on both paths: a request under a token issued to `userId` with
   * `roles` is granted exactly when these meet the roles the database has for the lock when it is
   * activated, and the entry, the reply and the message all say so, in the name of that user. A lock that
   * is not in the database then denies, and leaves no entry and no message.
   */
  lemma {:induction false} EndToEndDecision(
    s: State, before: seq<Step>, during: seq<Step>, id: string,
    token: seq<Claim>, userId: string, roles: seq<string>, employee: Option<string>, now: int, request: Step)
    requires IsRun(s, before) && Enabled(Exec(s, before), Activate(id))
    requires IsRun(Next(Exec(s, before), Activate(id)), during) && Deactivate(id) !in during
    requires Values(token, UserData) == [userId] && Values(token, Role) == roles
    requires HttpRequest(id, token, employee, now) == Some(request) || MqttRequest(id, token, now) == request
    ensures var locks, t := Exec(s, before).locks, Exec(Next(Exec(s, before), Activate(id)), during);
      && Enabled(t, request)
      && (request.employee == None ||
          (request.employee == employee && !IsBlank(employee.value) && Units(employee.value) <= 64))
      && var u := Next(t, request);
      id in u.live &&
      if id in locks then
        var result := if (set r | r in locks[id]) * (set r | r in roles) != {} then Granted else Denied;
        && Answer(t.live[id].grain, request.roles) == result
        && u.sent == t.sent + [Message(id, result)]
        && u.live[id].grain.accesses ==
           t.live[id].grain.accesses + [Entry(id, now, result, Some(userId), request.employee)]
      else
        Answer(t.live[id].grain, request.roles) == Denied && u.sent == t.sent && u.live[id] == t.live[id]
  {
    CacheIsFromActivation(s, before, during, id);
    FirstValueIsHead(token, UserData);
    var locks := Exec(s, before).locks;
    if id in locks {
      DecidedByCommonRole(Lock(id, locks[id]), roles);
    } else {
      var a := Exec(Next(Exec(s, before), Activate(id)), during).live[id];
      assert a.(grain := a.grain) == a;
    }
  }

  /** The roles in the database are those of the last edit. */
  lemma {:induction false} LastEditStays(s: State, before: seq<Step>, id: string, roles: seq<string>, after: seq<Step>)
    requires IsRun(s, before + [EditLock(id, roles)] + after)
    requires forall other :: EditLock(id, other) !in after
    ensures var locks := Exec(s, before + [EditLock(id, roles)] + after).locks; id in locks && locks[id] == roles
    decreases |after|
  {
    var run := before + [EditLock(id, roles)] + after;
    if after == [] {
      assert run == before + [EditLock(id, roles)];
    } else {
      assert Front(run) == before + [EditLock(id, roles)] + Front(after) && Last(run) == Last(after);
      assert Last(after) in after && forall step :: step in Front(after) ==> step in after;
      LastEditStays(s, before, id, roles, Front(after));
    }
  }

  /** After a role edit the next activation decides by the edited roles. */
  lemma {:induction false} EditsDecideTheNextActivation(
    s: State, before: seq<Step>, id: string, edited: seq<string>, after: seq<Step>, during: seq<Step>,
    roles: seq<string>)
    requires var run := before + [EditLock(id, edited)] + after;
      && IsRun(s, run) && Enabled(Exec(s, run), Activate(id))
      && IsRun(Next(Exec(s, run), Activate(id)), during)
    requires (forall other :: EditLock(id, other) !in after) && Deactivate(id) !in during
    ensures var t := Exec(Next(Exec(s, before + [EditLock(id, edited)] + after), Activate(id)), during);
      id in t.live && Answer(t.live[id].grain, roles) ==
      if (set r | r in edited) * (set r | r in roles) != {} then Granted else Denied
  {
    LastEditStays(s, before, id, edited, after);
    CacheIsFromActivation(s, before + [EditLock(id, edited)] + after, during, id);
    DecidedByCommonRole(Lock(id, edited), roles);
  }

  /** More roles never turn a grant into a denial, and the order of roles does not matter. */
  lemma {:induction false} DecisionIsMonotone(lock: Lock, roles: seq<string>, more: seq<string>)
    requires forall r :: r in roles ==> r in more
    ensures Decide(lock, roles) == Granted ==> Decide(lock, more) == Granted
    ensures (forall r :: r in more ==> r in roles) ==> Decide(lock, more) == Decide(lock, roles)
  {
    if r :| r in lock.roles && r in roles {
      assert r in more;
    }
  }
}
