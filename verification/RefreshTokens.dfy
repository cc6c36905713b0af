/**
  Refresh-token rotation: token families, single-use consumption and replay invalidation.

  A request to rotate a token runs as separate database statements (select, compare-and-set of the
  `used` flag, insert of the successor, or invalidation of the family), and requests, logins and
  logout-all statements interleave arbitrarily.  Any statement may fail.  Token ids are row
  numbers; `parent` is bookkeeping that no step reads.
 */
module RefreshTokens {
  import opened Common

  datatype Token = Token(user: nat, family: nat, used: bool, parent: Option<nat>)

  datatype Outcome = Unauthorized | Expired | Replayed | Refreshed(successor: nat) | ServerError

  datatype Request =
    | Selecting(token: nat)
    | Consuming(token: nat)
    | Invalidating(family: nat)
    | Issuing(parent: nat, user: nat, family: nat)   // token consumed, successor not yet inserted
    | Finished(outcome: Outcome)

  datatype System = System(tokens: seq<Token>, requests: seq<Request>, families: nat)

  datatype Action =
    | Login(user: nat)
    | LogoutAll(user: nat)
    | Arrive(token: nat)
    | Step(request: nat, expired: bool)
    | Fail(request: nat)

  const EMPTY := System([], [], 0)

  // ---- SQL statements on the table ---------------------------------------------------------------

  // UPDATE refresh_tokens SET used = 1 WHERE family = ?
  function MarkFamily(tokens: seq<Token>, family: nat): (r: seq<Token>)
    ensures |r| == |tokens|
    ensures forall k :: 0 <= k < |r| ==>
      r[k] == if tokens[k].family == family then tokens[k].(used := true) else tokens[k]
  {
    if tokens == [] then []
    else
      var n := |tokens| - 1;
      MarkFamily(tokens[..n], family)
        + [if tokens[n].family == family then tokens[n].(used := true) else tokens[n]]
  }

  // UPDATE refresh_tokens SET used = 1 WHERE user_id = ?
  function MarkUser(tokens: seq<Token>, user: nat): (r: seq<Token>)
    ensures |r| == |tokens|
    ensures forall k :: 0 <= k < |r| ==>
      r[k] == if tokens[k].user == user then tokens[k].(used := true) else tokens[k]
  {
    if tokens == [] then []
    else
      var n := |tokens| - 1;
      MarkUser(tokens[..n], user)
        + [if tokens[n].user == user then tokens[n].(used := true) else tokens[n]]
  }

  // ---- Steps -------------------------------------------------------------------------------------

  function Goto(s: System, i: nat, r: Request): System
    requires i < |s.requests|
  {
    s.(requests := s.requests[i := r])
  }

  function SelectStep(s: System, i: nat, expired: bool): System
    requires i < |s.requests| && s.requests[i].Selecting?
  {
    var id := s.requests[i].token;
    if id >= |s.tokens| then Goto(s, i, Finished(Unauthorized))
    else if s.tokens[id].used then Goto(s, i, Invalidating(s.tokens[id].family))
    else if expired then Goto(s, i, Finished(Expired))
    else Goto(s, i, Consuming(id))
  }

  // UPDATE refresh_tokens SET used = 1 WHERE id = ? AND used = 0
  function ConsumeStep(s: System, i: nat): System
    requires i < |s.requests| && s.requests[i].Consuming?
  {
    var id := s.requests[i].token;
    if id >= |s.tokens| then s
    else if s.tokens[id].used then Goto(s, i, Invalidating(s.tokens[id].family))
    else
      Goto(s.(tokens := s.tokens[id := s.tokens[id].(used := true)]), i,
           Issuing(id, s.tokens[id].user, s.tokens[id].family))
  }

  function StepRequest(s: System, i: nat, expired: bool): System
    requires i < |s.requests|
  {
    match s.requests[i]
    case Selecting(_) => SelectStep(s, i, expired)
    case Consuming(_) => ConsumeStep(s, i)
    case Invalidating(family) =>
      Goto(s.(tokens := MarkFamily(s.tokens, family)), i, Finished(Replayed))
    case Issuing(parent, user, family) =>
      Goto(s.(tokens := s.tokens + [Token(user, family, false, Some(parent))]), i,
           Finished(Refreshed(|s.tokens|)))
    case Finished(_) => s
  }

  // The next statement fails.  A failed family invalidation is ignored; a failure after the token
  // was consumed leaves the family without a successor.
  function FailRequest(s: System, i: nat): System
    requires i < |s.requests|
  {
    match s.requests[i]
    case Selecting(_) => Goto(s, i, Finished(Unauthorized))
    case Consuming(_) => Goto(s, i, Finished(ServerError))
    case Invalidating(_) => Goto(s, i, Finished(Replayed))
    case Issuing(_, _, _) => Goto(s, i, Finished(ServerError))
    case Finished(_) => s
  }

  /** A statement that fails changes no row and ends the request: the client may try again exactly when it
      was the rotation itself that failed, and is told of a replay even when its family was spared. */
  lemma FailureIsAnswered(s: System, i: nat)
    requires i < |s.requests|
    ensures FailRequest(s, i).tokens == s.tokens && FailRequest(s, i).families == s.families
    ensures FailRequest(s, i).requests[i].Finished?
    ensures var was, answer := s.requests[i], FailRequest(s, i).requests[i].outcome;
      && (was.Finished? ==> answer == was.outcome)
      && (!was.Finished? ==>
            && (answer.ServerError? <==> was.Consuming? || was.Issuing?)
            && (answer.Unauthorized? <==> was.Selecting?)
            && (answer.Replayed? <==> was.Invalidating?))
  {
  }

  function Apply(s: System, a: Action): System {
    match a
    case Login(user) =>
      s.(tokens := s.tokens + [Token(user, s.families, false, None)], families := s.families + 1)
    case LogoutAll(user) => s.(tokens := MarkUser(s.tokens, user))
    case Arrive(token) => s.(requests := s.requests + [Selecting(token)])
    case Step(i, expired) => if i < |s.requests| then StepRequest(s, i, expired) else s
    case Fail(i) => if i < |s.requests| then FailRequest(s, i) else s
  }

  function Run(s: System, actions: seq<Action>): System
    decreases |actions|
  {
    if actions == [] then s else Apply(Run(s, actions[..|actions| - 1]), actions[|actions| - 1])
  }

  // ---- Vocabulary of the claims ------------------------------------------------------------------

  function Unused(tokens: seq<Token>, f: nat): nat {
    if tokens == [] then 0
    else
      var n := |tokens| - 1;
      Unused(tokens[..n], f) + Unit(tokens[n].family == f && !tokens[n].used)
  }

  predicate IsIssuing(r: Request, f: nat) {
    r.Issuing? && r.family == f
  }

  function InFlight(requests: seq<Request>, f: nat): nat {
    if requests == [] then 0
    else InFlight(requests[..|requests| - 1], f) + Unit(IsIssuing(requests[|requests| - 1], f))
  }

  // Unused tokens of a family plus requests that consumed one and have not inserted its successor.
  function Live(s: System, f: nat): nat {
    Unused(s.tokens, f) + InFlight(s.requests, f)
  }

  // Token k is the newest of its family.
  predicate Newest(tokens: seq<Token>, k: nat)
    requires k < |tokens|
  {
    forall j :: k < j < |tokens| ==> tokens[j].family != tokens[k].family
  }

  // A token's parent is the token of its family inserted right before it; the first has none.
  predicate Lineage(tokens: seq<Token>) {
    forall t :: 0 <= t < |tokens| ==>
      match tokens[t].parent
      case None => forall j :: 0 <= j < t ==> tokens[j].family != tokens[t].family
      case Some(p) =>
        && p < t && tokens[p].family == tokens[t].family && tokens[p].user == tokens[t].user
        && tokens[p].used
        && forall j :: p < j < t ==> tokens[j].family != tokens[t].family
  }

  // ---- Counting lemmas ----------------------------------------------------------------------------

  lemma {:induction false} UnusedUpdate(tokens: seq<Token>, k: nat, t: Token, f: nat)
    requires k < |tokens|
    ensures Unused(tokens[k := t], f) + Unit(tokens[k].family == f && !tokens[k].used)
         == Unused(tokens, f) + Unit(t.family == f && !t.used)
  {
    var n := |tokens| - 1;
    if k == n {
      assert tokens[k := t][..n] == tokens[..n];
    } else {
      assert tokens[k := t][..n] == tokens[..n][k := t];
      UnusedUpdate(tokens[..n], k, t, f);
    }
  }

  lemma {:induction false} InFlightUpdate(requests: seq<Request>, i: nat, r: Request, f: nat)
    requires i < |requests|
    ensures InFlight(requests[i := r], f) + Unit(IsIssuing(requests[i], f))
         == InFlight(requests, f) + Unit(IsIssuing(r, f))
  {
    var n := |requests| - 1;
    if i == n {
      assert requests[i := r][..n] == requests[..n];
    } else {
      assert requests[i := r][..n] == requests[..n][i := r];
      InFlightUpdate(requests[..n], i, r, f);
    }
  }

  lemma UnusedSnoc(tokens: seq<Token>, t: Token, f: nat)
    ensures Unused(tokens + [t], f) == Unused(tokens, f) + Unit(t.family == f && !t.used)
  {
    assert (tokens + [t])[..|tokens|] == tokens;
  }

  lemma {:induction false} UnusedAfterMarkFamily(tokens: seq<Token>, family: nat, f: nat)
    ensures Unused(MarkFamily(tokens, family), f) == if f == family then 0 else Unused(tokens, f)
  {
    if tokens != [] {
      var n := |tokens| - 1;
      UnusedAfterMarkFamily(tokens[..n], family, f);
      assert MarkFamily(tokens, family)[..n] == MarkFamily(tokens[..n], family);
    }
  }

  lemma {:induction false} UnusedAfterMarkUser(tokens: seq<Token>, user: nat, f: nat)
    ensures Unused(MarkUser(tokens, user), f) <= Unused(tokens, f)
  {
    if tokens != [] {
      var n := |tokens| - 1;
      UnusedAfterMarkUser(tokens[..n], user, f);
      assert MarkUser(tokens, user)[..n] == MarkUser(tokens[..n], user);
    }
  }

  lemma {:induction false} UnusedPositive(tokens: seq<Token>, k: nat)
    requires k < |tokens| && !tokens[k].used
    ensures Unused(tokens, tokens[k].family) >= 1
  {
    var n := |tokens| - 1;
    if k < n {
      UnusedPositive(tokens[..n], k);
    }
  }

  lemma {:induction false} InFlightPositive(requests: seq<Request>, i: nat, f: nat)
    requires i < |requests| && IsIssuing(requests[i], f)
    ensures InFlight(requests, f) >= 1
  {
    var n := |requests| - 1;
    if i < n {
      InFlightPositive(requests[..n], i, f);
    }
  }

  lemma {:induction false} UnusedWitness(tokens: seq<Token>, f: nat) returns (k: nat)
    requires Unused(tokens, f) >= 1
    ensures k < |tokens| && tokens[k].family == f && !tokens[k].used
  {
    var n := |tokens| - 1;
    if tokens[n].family == f && !tokens[n].used {
      k := n;
    } else {
      k := UnusedWitness(tokens[..n], f);
    }
  }

  lemma {:induction false} InFlightWitness(requests: seq<Request>, f: nat) returns (i: nat)
    requires InFlight(requests, f) >= 1
    ensures i < |requests| && IsIssuing(requests[i], f)
  {
    var n := |requests| - 1;
    if IsIssuing(requests[n], f) {
      i := n;
    } else {
      i := InFlightWitness(requests[..n], f);
    }
  }

  // ---- The invariant -------------------------------------------------------------------------------

  // What is known about a request from the rows it has read.
  predicate RequestOk(s: System, r: Request) {
    match r
    case Consuming(id) => id < |s.tokens|
    case Issuing(p, user, family) =>
      && p < |s.tokens| && s.tokens[p].used && s.tokens[p].user == user && s.tokens[p].family == family
      && Newest(s.tokens, p)
    case Invalidating(family) => family < s.families
    case _ => true
  }

  // All tokens of a family belong to one user.
  predicate OneUserPerFamily(tokens: seq<Token>) {
    forall x, y :: 0 <= x < y < |tokens| && tokens[x].family == tokens[y].family ==> tokens[x].user == tokens[y].user
  }

  predicate TableOk(s: System) {
    && Lineage(s.tokens) && OneUserPerFamily(s.tokens)
    && (forall k :: 0 <= k < |s.tokens| ==> s.tokens[k].family < s.families)
    && (forall k :: 0 <= k < |s.tokens| && !s.tokens[k].used ==> Newest(s.tokens, k))
    && (forall i :: 0 <= i < |s.requests| ==> RequestOk(s, s.requests[i]))
  }

  ghost predicate AtMostOneLive(s: System) {
    forall f: nat :: Live(s, f) <= 1
  }

  lemma ConsumeKeepsLive(s: System, i: nat, f: nat)
    requires TableOk(s) && i < |s.requests| && s.requests[i].Consuming?
    ensures Live(ConsumeStep(s, i), f) == Live(s, f)
  {
    assert RequestOk(s, s.requests[i]);
    var t := ConsumeStep(s, i);
    InFlightUpdate(s.requests, i, t.requests[i], f);
    var id := s.requests[i].token;
    UnusedUpdate(s.tokens, id, s.tokens[id].(used := true), f);
  }

  lemma StepBoundsLive(s: System, i: nat, expired: bool, f: nat)
    requires TableOk(s) && i < |s.requests|
    ensures Live(StepRequest(s, i, expired), f) <= Live(s, f)
    ensures s.requests[i].Invalidating? && s.requests[i].family == f ==>
      Live(StepRequest(s, i, expired), f) == InFlight(s.requests, f)
  {
    var t := StepRequest(s, i, expired);
    match s.requests[i] {
      case Selecting(_) => InFlightUpdate(s.requests, i, t.requests[i], f);
      case Consuming(_) => ConsumeKeepsLive(s, i, f);
      case Invalidating(family) =>
        InFlightUpdate(s.requests, i, t.requests[i], f);
        UnusedAfterMarkFamily(s.tokens, family, f);
      case Issuing(p, user, family) =>
        InFlightUpdate(s.requests, i, t.requests[i], f);
        UnusedSnoc(s.tokens, Token(user, family, false, Some(p)), f);
      case Finished(_) =>
    }
  }

  lemma FailBoundsLive(s: System, i: nat, f: nat)
    requires i < |s.requests|
    ensures Live(FailRequest(s, i), f) <= Live(s, f)
  {
    InFlightUpdate(s.requests, i, FailRequest(s, i).requests[i], f);
  }

  // No step makes a family livelier, except the login that creates it.
  lemma ApplyBoundsLive(s: System, a: Action, f: nat)
    requires TableOk(s)
    ensures Live(Apply(s, a), f) <= Live(s, f) + Unit(a.Login? && f == s.families)
  {
    match a {
      case Login(user) => UnusedSnoc(s.tokens, Token(user, s.families, false, None), f);
      case LogoutAll(user) => UnusedAfterMarkUser(s.tokens, user, f);
      case Arrive(token) =>
        var t := Apply(s, a);
        assert t.requests[..|t.requests| - 1] == s.requests;
      case Step(i, expired) => if i < |s.requests| { StepBoundsLive(s, i, expired, f); }
      case Fail(i) => if i < |s.requests| { FailBoundsLive(s, i, f); }
    }
  }

  // A family no login has created yet has nothing live.
  lemma UnbornIsDead(s: System, f: nat)
    requires TableOk(s) && f >= s.families
    ensures Live(s, f) == 0
  {
    if Unused(s.tokens, f) >= 1 {
      var k := UnusedWitness(s.tokens, f);
      assert false;
    }
    forall i | 0 <= i < |s.requests| ensures !IsIssuing(s.requests[i], f) {
      assert RequestOk(s, s.requests[i]);
    }
    if InFlight(s.requests, f) >= 1 {
      var i := InFlightWitness(s.requests, f);
      assert false;
    }
  }

  // Some used flags were raised and nothing else changed in the table.
  predicate Flagged(before: seq<Token>, after: seq<Token>) {
    && |after| == |before|
    && forall k :: 0 <= k < |before| ==> after[k] == before[k] || after[k] == before[k].(used := true)
  }

  lemma FlaggedKeepsLineage(before: seq<Token>, after: seq<Token>)
    requires Flagged(before, after) && Lineage(before)
    ensures Lineage(after)
  {
    assert forall k :: 0 <= k < |before| ==>
      after[k].family == before[k].family && after[k].user == before[k].user && after[k].parent == before[k].parent;
  }

  lemma FlaggedKeepsTable(s: System, t: System)
    requires TableOk(s) && Flagged(s.tokens, t.tokens) && t.families == s.families
    requires |t.requests| == |s.requests|
    requires forall i :: 0 <= i < |s.requests| ==> t.requests[i] == s.requests[i] || RequestOk(t, t.requests[i])
    ensures TableOk(t)
  {
    FlaggedKeepsLineage(s.tokens, t.tokens);
    assert forall k :: 0 <= k < |s.tokens| ==> t.tokens[k].family == s.tokens[k].family;
    forall i | 0 <= i < |t.requests| ensures RequestOk(t, t.requests[i]) {
      assert RequestOk(s, s.requests[i]);
    }
  }

  lemma {:induction false} TwoInFlight(requests: seq<Request>, i: nat, j: nat, f: nat)
    requires i < j < |requests| && IsIssuing(requests[i], f) && IsIssuing(requests[j], f)
    ensures InFlight(requests, f) >= 2
  {
    var n := |requests| - 1;
    if j == n {
      InFlightPositive(requests[..n], i, f);
    } else {
      TwoInFlight(requests[..n], i, j, f);
    }
  }

  // While a rotation of family f is in flight, nothing else in f is live.
  lemma InFlightIsAlone(s: System, i: nat, f: nat)
    requires AtMostOneLive(s) && i < |s.requests| && IsIssuing(s.requests[i], f)
    ensures forall k :: 0 <= k < |s.tokens| && s.tokens[k].family == f ==> s.tokens[k].used
    ensures forall j :: 0 <= j < |s.requests| && j != i ==> !IsIssuing(s.requests[j], f)
  {
    assert Live(s, f) <= 1;
    InFlightPositive(s.requests, i, f);
    forall k | 0 <= k < |s.tokens| && s.tokens[k].family == f ensures s.tokens[k].used {
      if !s.tokens[k].used { UnusedPositive(s.tokens, k); }
    }
    forall j | 0 <= j < |s.requests| && j != i ensures !IsIssuing(s.requests[j], f) {
      if IsIssuing(s.requests[j], f) {
        if i < j { TwoInFlight(s.requests, i, j, f); } else { TwoInFlight(s.requests, j, i, f); }
      }
    }
  }

  lemma AppendKeepsLineage(tokens: seq<Token>, t: Token)
    requires Lineage(tokens)
    requires match t.parent
      case None => forall j :: 0 <= j < |tokens| ==> tokens[j].family != t.family
      case Some(p) =>
        && p < |tokens| && tokens[p].used && tokens[p].family == t.family
        && tokens[p].user == t.user && Newest(tokens, p)
    ensures Lineage(tokens + [t])
  {
    var after := tokens + [t];
    forall k | 0 <= k < |after|
      ensures match after[k].parent
        case None => forall j :: 0 <= j < k ==> after[j].family != after[k].family
        case Some(p) =>
          && p < k && after[p].family == after[k].family && after[p].user == after[k].user && after[p].used
          && forall j :: p < j < k ==> after[j].family != after[k].family
    {
      if k < |tokens| {
        assert after[k] == tokens[k];
      }
    }
  }

  lemma AppendKeepsOthers(s: System, t: System, token: Token)
    requires TableOk(s) && t.tokens == s.tokens + [token] && t.families >= s.families
    requires token.family < t.families && Lineage(t.tokens)
    requires forall k :: 0 <= k < |s.tokens| && s.tokens[k].family == token.family ==> s.tokens[k].used
    requires |t.requests| == |s.requests|
    requires forall i :: 0 <= i < |s.requests| ==>
      (t.requests[i] == s.requests[i] && !IsIssuing(s.requests[i], token.family)) || t.requests[i].Finished?
    ensures TableOk(t)
  {
    forall i | 0 <= i < |t.requests| ensures RequestOk(t, t.requests[i]) {
      assert RequestOk(s, s.requests[i]);
    }
  }

  lemma IssueKeepsTable(s: System, i: nat, expired: bool)
    requires TableOk(s) && AtMostOneLive(s) && i < |s.requests| && s.requests[i].Issuing?
    ensures TableOk(StepRequest(s, i, expired))
  {
    var r := s.requests[i];
    assert RequestOk(s, r);
    InFlightIsAlone(s, i, r.family);
    var token := Token(r.user, r.family, false, Some(r.parent));
    AppendKeepsLineage(s.tokens, token);
    AppendKeepsOthers(s, StepRequest(s, i, expired), token);
  }

  // An unused token is its family's only live place, and so its newest token.
  lemma ConsumeKeepsTable(s: System, i: nat)
    requires TableOk(s) && i < |s.requests| && s.requests[i].Consuming?
    ensures TableOk(ConsumeStep(s, i))
  {
    assert RequestOk(s, s.requests[i]);
    FlaggedKeepsTable(s, ConsumeStep(s, i));
  }

  lemma StepKeepsTable(s: System, i: nat, expired: bool)
    requires TableOk(s) && AtMostOneLive(s) && i < |s.requests|
    ensures TableOk(StepRequest(s, i, expired))
  {
    match s.requests[i] {
      case Selecting(id) => FlaggedKeepsTable(s, StepRequest(s, i, expired));
      case Consuming(_) => ConsumeKeepsTable(s, i);
      case Invalidating(_) => FlaggedKeepsTable(s, StepRequest(s, i, expired));
      case Issuing(_, _, _) => IssueKeepsTable(s, i, expired);
      case Finished(_) =>
    }
  }

  lemma ApplyKeepsTable(s: System, a: Action)
    requires TableOk(s) && AtMostOneLive(s)
    ensures TableOk(Apply(s, a))
  {
    match a {
      case Login(user) =>
        var token := Token(user, s.families, false, None);
        AppendKeepsLineage(s.tokens, token);
        forall i | 0 <= i < |s.requests| ensures !IsIssuing(s.requests[i], s.families) {
          assert RequestOk(s, s.requests[i]);
        }
        AppendKeepsOthers(s, Apply(s, a), token);
      case LogoutAll(user) => FlaggedKeepsTable(s, Apply(s, a));
      case Arrive(token) =>
        var t := Apply(s, a);
        forall i | 0 <= i < |t.requests| ensures RequestOk(t, t.requests[i]) {
          assert i < |s.requests| ==> RequestOk(s, s.requests[i]);
        }
      case Step(i, expired) => if i < |s.requests| { StepKeepsTable(s, i, expired); }
      case Fail(i) => if i < |s.requests| { FlaggedKeepsTable(s, FailRequest(s, i)); }
    }
  }

  ghost predicate Inv(s: System) {
    TableOk(s) && AtMostOneLive(s)
  }

  lemma ApplyKeepsInv(s: System, a: Action)
    requires Inv(s)
    ensures Inv(Apply(s, a))
  {
    ApplyKeepsTable(s, a);
    forall f: nat ensures Live(Apply(s, a), f) <= 1 {
      ApplyBoundsLive(s, a, f);
      assert Live(s, f) <= 1;
      if f >= s.families { UnbornIsDead(s, f); }
    }
  }

  lemma {:induction false} RunKeepsInv(s: System, actions: seq<Action>)
    requires Inv(s)
    ensures Inv(Run(s, actions))
  {
    if actions != [] {
      RunKeepsInv(s, actions[..|actions| - 1]);
      ApplyKeepsInv(Run(s, actions[..|actions| - 1]), actions[|actions| - 1]);
    }
  }

  // ---- Claims about every interleaving --------------------------------------------------------------

  /** In every interleaving, every family has at most one place from which it can go on: an unused
      token, or a request between winning the compare-and-set and inserting the successor. */
  lemma AtMostOneLivePerFamily(actions: seq<Action>, f: nat)
    ensures var s := Run(EMPTY, actions); Unused(s.tokens, f) + InFlight(s.requests, f) <= 1
  {
    RunKeepsInv(EMPTY, actions);
    assert Live(Run(EMPTY, actions), f) <= 1;
  }

  /** In every interleaving, a family is one linear lineage: each token's parent is the token of
      the family issued right before it, to the same user and already consumed; and no token is
      rotated twice. */
  lemma FamiliesAreLinear(actions: seq<Action>)
    ensures var s := Run(EMPTY, actions);
      && Lineage(s.tokens)
      && forall x, y :: 0 <= x < y < |s.tokens| && s.tokens[x].parent.Some? ==> s.tokens[x].parent != s.tokens[y].parent
  {
    RunKeepsInv(EMPTY, actions);
    LineageHasNoFork(Run(EMPTY, actions).tokens);
  }

  lemma LineageHasNoFork(tokens: seq<Token>)
    requires Lineage(tokens)
    ensures forall x, y :: 0 <= x < y < |tokens| && tokens[x].parent.Some? ==> tokens[x].parent != tokens[y].parent
  {
    forall x, y | 0 <= x < y < |tokens| && tokens[x].parent.Some?
      ensures tokens[x].parent != tokens[y].parent
    {
      var p := tokens[x].parent.value;
      assert p < x && tokens[x].family == tokens[p].family;
    }
  }

  // How many tokens family f has.
  function Members(tokens: seq<Token>, f: nat): nat {
    if tokens == [] then 0
    else Members(tokens[..|tokens| - 1], f) + Unit(tokens[|tokens| - 1].family == f)
  }

  lemma {:induction false} FlaggedKeepsMembers(before: seq<Token>, after: seq<Token>, f: nat)
    requires Flagged(before, after)
    ensures Members(after, f) == Members(before, f)
  {
    if before != [] {
      FlaggedKeepsMembers(before[..|before| - 1], after[..|after| - 1], f);
    }
  }

  lemma MembersSnoc(tokens: seq<Token>, t: Token, f: nat)
    ensures Members(tokens + [t], f) == Members(tokens, f) + Unit(t.family == f)
  {
    assert (tokens + [t])[..|tokens|] == tokens;
  }

  lemma StepGrowsFamily(s: System, i: nat, expired: bool, f: nat)
    requires i < |s.requests| && InFlight(s.requests, f) == 0
    ensures Members(StepRequest(s, i, expired).tokens, f) == Members(s.tokens, f)
  {
    match s.requests[i] {
      case Issuing(p, user, family) =>
        if family == f { InFlightPositive(s.requests, i, f); }
        MembersSnoc(s.tokens, Token(user, family, false, Some(p)), f);
      case _ => FlaggedKeepsMembers(s.tokens, StepRequest(s, i, expired).tokens, f);
    }
  }

  lemma ApplyGrowsFamily(s: System, a: Action, f: nat)
    requires f < s.families && InFlight(s.requests, f) == 0
    ensures Members(Apply(s, a).tokens, f) == Members(s.tokens, f)
  {
    match a {
      case Login(user) => MembersSnoc(s.tokens, Token(user, s.families, false, None), f);
      case LogoutAll(user) => FlaggedKeepsMembers(s.tokens, MarkUser(s.tokens, user), f);
      case Arrive(_) =>
      case Fail(_) =>
      case Step(i, expired) => if i < |s.requests| { StepGrowsFamily(s, i, expired, f); }
    }
  }

  /** A family with no unused token and no rotation in flight stays dead under every later step:
      it never gets another token, so no refresh in it succeeds again. */
  lemma {:induction false} DeadFamilyStaysDead(s: System, actions: seq<Action>, f: nat)
    requires Inv(s) && f < s.families && Live(s, f) == 0
    ensures var t := Run(s, actions);
      f < t.families && Live(t, f) == 0 && Members(t.tokens, f) == Members(s.tokens, f)
  {
    if actions != [] {
      var prefix, a := actions[..|actions| - 1], actions[|actions| - 1];
      DeadFamilyStaysDead(s, prefix, f);
      RunKeepsInv(s, prefix);
      ApplyBoundsLive(Run(s, prefix), a, f);
      ApplyGrowsFamily(Run(s, prefix), a, f);
      FamiliesGrow(Run(s, prefix), a);
    }
  }

  lemma FamiliesGrow(s: System, a: Action)
    ensures Apply(s, a).families >= s.families
  {
  }

  /** The invalidation that answers a replay (or a lost race) in family f kills the family exactly
      when no rotation of it is in flight at that moment. */
  lemma InvalidationKillsIdleFamilies(actions: seq<Action>, i: nat, expired: bool)
    requires var s := Run(EMPTY, actions); i < |s.requests| && s.requests[i].Invalidating?
    ensures var s := Run(EMPTY, actions);
      var f := s.requests[i].family;
      var t := Apply(s, Step(i, expired));
      Live(t, f) == 0 <==> InFlight(s.requests, f) == 0
  {
    RunKeepsInv(EMPTY, actions);
    var s := Run(EMPTY, actions);
    StepBoundsLive(s, i, expired, s.requests[i].family);
  }

  /** Presenting a used token of an idle family: after the two statements of that request no later
      step, by anyone, ever extends the family. */
  lemma ReplayOnIdleFamilyIsFinal(before: seq<Action>, i: nat, later: seq<Action>)
    requires var s := Run(EMPTY, before);
      && i < |s.requests| && s.requests[i].Selecting? && s.requests[i].token < |s.tokens|
      && s.tokens[s.requests[i].token].used
      && InFlight(s.requests, s.tokens[s.requests[i].token].family) == 0
    ensures var s := Run(EMPTY, before);
      var f := s.tokens[s.requests[i].token].family;
      var t := Apply(Apply(s, Step(i, false)), Step(i, false));
      && t.requests[i] == Finished(Replayed)
      && Live(Run(t, later), f) == 0 && Members(Run(t, later).tokens, f) == Members(s.tokens, f)
  {
    RunKeepsInv(EMPTY, before);
    ReplayIsFinal(Run(EMPTY, before), i, later);
  }

  lemma ReplayIsFinal(s: System, i: nat, later: seq<Action>)
    requires Inv(s) && i < |s.requests| && s.requests[i].Selecting? && s.requests[i].token < |s.tokens|
    requires s.tokens[s.requests[i].token].used
    requires InFlight(s.requests, s.tokens[s.requests[i].token].family) == 0
    ensures var f := s.tokens[s.requests[i].token].family;
      var t := Apply(Apply(s, Step(i, false)), Step(i, false));
      && t.requests[i] == Finished(Replayed)
      && Live(Run(t, later), f) == 0 && Members(Run(t, later).tokens, f) == Members(s.tokens, f)
  {
    var f := s.tokens[s.requests[i].token].family;
    var u := Apply(s, Step(i, false));
    ApplyKeepsInv(s, Step(i, false));
    InFlightUpdate(s.requests, i, Invalidating(f), f);
    StepBoundsLive(u, i, false, f);
    ApplyKeepsInv(u, Step(i, false));
    var t := Apply(u, Step(i, false));
    FlaggedKeepsMembers(u.tokens, t.tokens, f);
    DeadFamilyStaysDead(t, later, f);
  }

  lemma {:induction false} NoneUnused(tokens: seq<Token>, f: nat)
    requires forall j :: 0 <= j < |tokens| && tokens[j].family == f ==> tokens[j].used
    ensures Unused(tokens, f) == 0
  {
    if tokens != [] { NoneUnused(tokens[..|tokens| - 1], f); }
  }

  lemma LogoutUsesUp(s: System, k: nat)
    requires Inv(s) && k < |s.tokens|
    ensures Unused(MarkUser(s.tokens, s.tokens[k].user), s.tokens[k].family) == 0
  {
    var f, u := s.tokens[k].family, s.tokens[k].user;
    NoneUnused(MarkUser(s.tokens, u), f);
  }

  // The family of token k after its user logs out everywhere, and after any later steps.
  predicate LogoutEnds(s: System, k: nat, later: seq<Action>)
    requires k < |s.tokens|
  {
    var f := s.tokens[k].family;
    var t := Apply(s, LogoutAll(s.tokens[k].user));
    && (Live(t, f) == 0 <==> InFlight(s.requests, f) == 0)
    && (InFlight(s.requests, f) == 0 ==> Live(Run(t, later), f) == 0 && Members(Run(t, later).tokens, f) == Members(s.tokens, f))
  }

  /** A logout-all ends every family of the user for good exactly when no rotation of it is in flight:
      then no later step, by anyone, extends the family; a rotation that has already consumed its token
      still inserts the successor. */
  lemma {:induction false} LogoutKillsIdleFamilies(actions: seq<Action>, s: System, k: nat, later: seq<Action>)
    requires s == Run(EMPTY, actions) && k < |s.tokens|
    ensures LogoutEnds(s, k, later)
  {
    RunKeepsInv(EMPTY, actions);
    LogoutIsFinal(s, k, later);
  }

  lemma {:induction false} LogoutIsFinal(s: System, k: nat, later: seq<Action>)
    requires Inv(s) && k < |s.tokens|
    ensures LogoutEnds(s, k, later)
  {
    var f, a := s.tokens[k].family, LogoutAll(s.tokens[k].user);
    var t := Apply(s, a);
    LogoutUsesUp(s, k);
    ApplyKeepsInv(s, a);
    FlaggedKeepsMembers(s.tokens, t.tokens, f);
    if Live(t, f) == 0 {
      DeadFamilyStaysDead(t, later, f);
    }
  }

  // ---- The request handler on the mutable table -----------------------------------------------------

  // The table and the answer one request leaves, when at most one logout-all lands among its
  // statements (between the SELECT and the UPDATE).
  function Refresh(tokens: seq<Token>, token: nat, expired: bool, logout: Option<nat>): (seq<Token>, Outcome) {
    var after := if logout.Some? then MarkUser(tokens, logout.value) else tokens;
    if token >= |tokens| then (after, Unauthorized)
    else
      var row := tokens[token];
      if row.used then (MarkFamily(after, row.family), Replayed)
      else if expired then (after, Expired)
      else if after[token].used then (MarkFamily(after, row.family), Replayed)
      else
        (after[token := after[token].(used := true)] + [Token(row.user, row.family, false, Some(token))],
         Refreshed(|after|))
  }

  /** A request rotates exactly a known, unused, unexpired token that the logout did not reach: the
      token is consumed, its successor continues the family and no other token changes but by the
      logout.  Otherwise flags are only raised: an unknown token and an unused but expired one raise
      none, and every other is a replay, which uses up its family and no other. */
  lemma RefreshRotatesOrMarks(tokens: seq<Token>, token: nat, expired: bool, logout: Option<nat>)
    ensures var (after, outcome) := Refresh(tokens, token, expired, logout);
      && (outcome.Refreshed? <==>
            token < |tokens| && !tokens[token].used && !expired && logout != Some(tokens[token].user))
      && (outcome.Refreshed? ==>
            && outcome.successor == |tokens| && |after| == |tokens| + 1
            && after[|tokens|] == Token(tokens[token].user, tokens[token].family, false, Some(token))
            && Flagged(tokens, after[..|tokens|]))
      && (outcome.Unauthorized? <==> token >= |tokens|)
      && (outcome.Expired? <==> token < |tokens| && !tokens[token].used && expired)
      && (!outcome.Refreshed? ==> Flagged(tokens, after) && !outcome.ServerError?)
      && (forall k :: 0 <= k < |tokens| ==>
            (after[k].used <==>
              || tokens[k].used || logout == Some(tokens[k].user)
              || (outcome.Refreshed? && k == token)
              || (outcome.Replayed? && tokens[k].family == tokens[token].family)))
  {
  }

  // The machine's account of request i when only a logout-all lands among its statements.
  function RequestAlone(s: System, i: nat, expired: bool, logout: Option<nat>): System {
    var a := Apply(s, Step(i, expired));
    var b := if logout.Some? then Apply(a, LogoutAll(logout.value)) else a;
    Apply(Apply(b, Step(i, expired)), Step(i, expired))
  }

  /** The handler's effect is the interleaving machine's, for a request that only the logout meets. */
  lemma RefreshIsRequestAlone(tokens: seq<Token>, families: nat, token: nat, expired: bool, logout: Option<nat>)
    ensures var (after, outcome) := Refresh(tokens, token, expired, logout);
      RequestAlone(System(tokens, [Selecting(token)], families), 0, expired, logout)
        == System(after, [Finished(outcome)], families)
  {
    var s := System(tokens, [Selecting(token)], families);
    var marked := if logout.Some? then MarkUser(tokens, logout.value) else tokens;
    LoneStep(s, Selected(tokens, token, expired), tokens, expired);
    var a := System(tokens, [Selected(tokens, token, expired)], families);
    var b := System(marked, a.requests, families);
    assert logout.Some? ==> Apply(a, LogoutAll(logout.value)) == b;
    AfterSelect(b, tokens, token, expired);
  }

  // What the SELECT of a lone request makes of it.
  function Selected(tokens: seq<Token>, token: nat, expired: bool): Request {
    if token >= |tokens| then Finished(Unauthorized)
    else if tokens[token].used then Invalidating(tokens[token].family)
    else if expired then Finished(Expired)
    else Consuming(token)
  }

  lemma AfterSelect(b: System, tokens: seq<Token>, token: nat, expired: bool)
    requires |b.tokens| == |tokens| && b.requests == [Selected(tokens, token, expired)]
    requires Flagged(tokens, b.tokens)
    ensures var t := Apply(Apply(b, Step(0, expired)), Step(0, expired));
      t == if token >= |tokens| || (!tokens[token].used && expired) then b
           else if b.tokens[token].used then
             System(MarkFamily(b.tokens, tokens[token].family), [Finished(Replayed)], b.families)
           else
             System(b.tokens[token := b.tokens[token].(used := true)]
                      + [Token(tokens[token].user, tokens[token].family, false, Some(token))],
                    [Finished(Refreshed(|tokens|))], b.families)
  {
    match b.requests[0] {
      case Invalidating(f) =>
        LoneStep(b, Finished(Replayed), MarkFamily(b.tokens, f), expired);
      case Consuming(_) =>
        AfterConsume(b, token, expired);
      case _ =>
    }
  }

  lemma LoneStep(b: System, r: Request, tokens: seq<Token>, expired: bool)
    requires |b.requests| == 1
    requires StepRequest(b, 0, expired) == Goto(b.(tokens := tokens), 0, r)
    ensures Apply(b, Step(0, expired)) == System(tokens, [r], b.families)
  {
    assert b.requests[0 := r] == [r];
  }

  lemma AfterConsume(b: System, id: nat, expired: bool)
    requires b.requests == [Consuming(id)] && id < |b.tokens|
    ensures var row := b.tokens[id];
      Apply(Apply(b, Step(0, expired)), Step(0, expired))
        == if row.used then System(MarkFamily(b.tokens, row.family), [Finished(Replayed)], b.families)
           else System(b.tokens[id := row.(used := true)] + [Token(row.user, row.family, false, Some(id))],
                       [Finished(Refreshed(|b.tokens|))], b.families)
  {
    var row := b.tokens[id];
    if row.used {
      LoneStep(b, Invalidating(row.family), b.tokens, expired);
      var c := System(b.tokens, [Invalidating(row.family)], b.families);
      LoneStep(c, Finished(Replayed), MarkFamily(b.tokens, row.family), expired);
    } else {
      var issuing := Issuing(id, row.user, row.family);
      var consumed := b.tokens[id := row.(used := true)];
      LoneStep(b, issuing, consumed, expired);
      var c := System(consumed, [issuing], b.families);
      LoneStep(c, Finished(Refreshed(|b.tokens|)),
               consumed + [Token(row.user, row.family, false, Some(id))], expired);
    }
  }

  class TokenStore {
    var tokens: seq<Token>
    var families: nat

    constructor ()
      ensures tokens == [] && families == 0
    {
      tokens, families := [], 0;
    }

    method Login(user: nat) returns (id: nat)
      modifies this
      ensures System(tokens, [], families) == Apply(System(old(tokens), [], old(families)), Action.Login(user))
      ensures id < |tokens| && !tokens[id].used && tokens[id].user == user
    {
      id := |tokens|;
      tokens := tokens + [Token(user, families, false, None)];
      families := families + 1;
    }

    // The rows of one user are flagged one by one.
    method InvalidateAllUserTokens(user: nat)
      modifies this`tokens
      ensures Flagged(old(tokens), tokens) && tokens == MarkUser(old(tokens), user)
      ensures forall k :: 0 <= k < |tokens| ==> (tokens[k].used <==> old(tokens)[k].used || tokens[k].user == user)
    {
      var i := 0;
      while i < |tokens|
        invariant 0 <= i <= |tokens| == |old(tokens)|
        invariant forall k :: 0 <= k < i ==> tokens[k] == MarkUser(old(tokens), user)[k]
        invariant forall k :: i <= k < |tokens| ==> tokens[k] == old(tokens)[k]
      {
        if tokens[i].user == user {
          tokens := tokens[i := tokens[i].(used := true)];
        }
        i := i + 1;
      }
    }

    method HandleRefresh(token: nat, expired: bool, logout: Option<nat>) returns (outcome: Outcome)
      modifies this`tokens
      ensures (tokens, outcome) == Refresh(old(tokens), token, expired, logout)
    {
      var selected := token < |tokens|;
      if !selected {
        Meanwhile(logout);
        return Unauthorized;
      }
      var row := tokens[token];
      Meanwhile(logout);
      if row.used {
        tokens := MarkFamily(tokens, row.family);
        return Replayed;
      }
      if expired {
        return Expired;
      }
      if tokens[token].used {   // the UPDATE affected no row
        tokens := MarkFamily(tokens, row.family);
        return Replayed;
      }
      tokens := tokens[token := tokens[token].(used := true)];
      var successor := |tokens|;
      tokens := tokens + [Token(row.user, row.family, false, Some(token))];
      return Refreshed(successor);
    }

    method Meanwhile(logout: Option<nat>)
      modifies this`tokens
      ensures tokens == if logout.Some? then MarkUser(old(tokens), logout.value) else old(tokens)
    {
      if logout.Some? {
        InvalidateAllUserTokens(logout.value);
      }
    }
  }
}
