/** Refresh-token rotation. A token row is known by its position in the table. A refresh or a logout
    first reads the table and commits later, when the table may have moved on. */
module RefreshTokens {
  import opened ReviewTypes

  datatype Token = Token(userId: Id, hash: string, expiresAt: Time, revokedAt: Option<Time>)

  datatype ErrorCode = TokenInvalid | TokenExpired | RefreshTokenRevoked | UserUnavailable

  // ---------- The table ----------

  predicate ActiveOf(t: Token, userId: Id) { t.userId == userId && t.revokedAt.None? }

  /** The newest active token of the user with this hash. */
  function FindActive(tokens: seq<Token>, userId: Id, hash: string): (k: Option<nat>)
    ensures k.Some? ==> k.value < |tokens| && ActiveOf(tokens[k.value], userId) && tokens[k.value].hash == hash
    ensures k.None? ==> forall i :: 0 <= i < |tokens| ==> !(ActiveOf(tokens[i], userId) && tokens[i].hash == hash)
    ensures k.Some? ==> forall i :: k.value < i < |tokens| ==> !(ActiveOf(tokens[i], userId) && tokens[i].hash == hash)
  {
    if tokens == [] then None
    else
      var last := |tokens| - 1;
      if ActiveOf(tokens[last], userId) && tokens[last].hash == hash then Some(last)
      else
        var init := tokens[..last];
        assert forall i :: 0 <= i < last ==> init[i] == tokens[i];
        FindActive(init, userId, hash)
  }

  function Create(tokens: seq<Token>, userId: Id, hash: string, expiresAt: Time): seq<Token> {
    tokens + [Token(userId, hash, expiresAt, None)]
  }

  predicate Rotatable(tokens: seq<Token>, k: nat, now: Time) {
    k < |tokens| && tokens[k].revokedAt.None? && tokens[k].expiresAt > now
  }

  function Revoked(tokens: seq<Token>, k: nat, now: Time): (after: seq<Token>)
    requires k < |tokens|
    ensures |after| == |tokens|
  {
    tokens[k := tokens[k].(revokedAt := Some(now))]
  }

  function RevokedAll(tokens: seq<Token>, userId: Id, now: Time): (after: seq<Token>)
    ensures |after| == |tokens|
    ensures forall i :: 0 <= i < |tokens| ==>
              after[i] == if ActiveOf(tokens[i], userId) then tokens[i].(revokedAt := Some(now)) else tokens[i]
  {
    seq(|tokens|, i requires 0 <= i < |tokens| =>
      if ActiveOf(tokens[i], userId) then tokens[i].(revokedAt := Some(now)) else tokens[i])
  }

  // ---------- Requests ----------

  /** `admitted` says whether the user is there, active and in an available workspace. */
  datatype Request =
    | Login(userId: Id, newHash: string, expiresAt: Time)
    | Refresh(userId: Id, hash: string, newHash: string, expiresAt: Time, readAt: Time, now: Time, admitted: bool)
    | Logout(userId: Id, hash: string, now: Time)
    | LogoutAll(userId: Id, now: Time)

  datatype Outcome = Outcome(tokens: seq<Token>, error: Option<ErrorCode>)

  /** The row a refresh goes on to rotate, or the error it answers with before touching the table. */
  function Present(rq: Request, read: seq<Token>): (r: (Option<nat>, Option<ErrorCode>))
    requires rq.Refresh?
    ensures r.0.Some? <==> r.1.None?
    ensures r.0.Some? ==> r.0.value < |read| && ActiveOf(read[r.0.value], rq.userId) && read[r.0.value].hash == rq.hash
  {
    var k := FindActive(read, rq.userId, rq.hash);
    if k.None? then (None, Some(TokenInvalid))
    else if read[k.value].expiresAt <= rq.readAt then (None, Some(TokenExpired))
    else if !rq.admitted then (None, Some(UserUnavailable))
    else (k, None)
  }

  function Perform(rq: Request, read: seq<Token>, cur: seq<Token>): Outcome {
    match rq
    case Login(userId, newHash, expiresAt) => Outcome(Create(cur, userId, newHash, expiresAt), None)
    case Refresh(userId, hash, newHash, expiresAt, readAt, now, admitted) =>
      var (k, error) := Present(rq, read);
      if error.Some? then Outcome(cur, error)
      else if !Rotatable(cur, k.value, now) then Outcome(cur, Some(RefreshTokenRevoked))
      else Outcome(Create(Revoked(cur, k.value, now), userId, newHash, expiresAt), None)
    case Logout(userId, hash, now) =>
      var k := FindActive(read, userId, hash);
      if k.None? || k.value >= |cur| then Outcome(cur, None) else Outcome(Revoked(cur, k.value, now), None)
    case LogoutAll(userId, now) => Outcome(RevokedAll(cur, userId, now), None)
  }

  /** A request that stored a new token. */
  predicate Issues(rq: Request, read: seq<Token>, cur: seq<Token>) {
    rq.Login? || (rq.Refresh? && Perform(rq, read, cur).error.None?)
  }

  // ---------- What a request answers and stores ----------

  /** The row is the user's newest unrevoked one with that hash. */
  predicate IsPresented(read: seq<Token>, k: nat, userId: Id, hash: string) {
    && k < |read| && read[k].userId == userId && read[k].hash == hash && read[k].revokedAt == None
    && forall j :: k < j < |read| ==> !(read[j].userId == userId && read[j].hash == hash && read[j].revokedAt == None)
  }

  /** A refresh succeeds exactly if the presented row was found, had not expired and its user is admitted, and it is
      still unrevoked and unexpired when it is rotated: then it is revoked and its successor stored. Otherwise the table
      stays, and the error says the first that was wrong. */
  lemma RefreshIff(rq: Request, read: seq<Token>, cur: seq<Token>, k: nat)
    requires rq.Refresh?
    ensures (forall j: nat :: !IsPresented(read, j, rq.userId, rq.hash)) ==>
              Perform(rq, read, cur) == Outcome(cur, Some(TokenInvalid))
    ensures IsPresented(read, k, rq.userId, rq.hash) ==>
              var outcome := Perform(rq, read, cur);
              && (outcome.error == None
                  <==> read[k].expiresAt > rq.readAt && rq.admitted
                       && k < |cur| && cur[k].revokedAt == None && cur[k].expiresAt > rq.now)
              && (outcome.error == Some(TokenExpired) <==> read[k].expiresAt <= rq.readAt)
              && (outcome.error == Some(UserUnavailable) <==> read[k].expiresAt > rq.readAt && !rq.admitted)
              && outcome.error != Some(TokenInvalid)
              && outcome.tokens == if outcome.error != None then cur
                                   else cur[k := cur[k].(revokedAt := Some(rq.now))]
                                        + [Token(rq.userId, rq.newHash, rq.expiresAt, None)]
  {
    var found := FindActive(read, rq.userId, rq.hash);
    if found.Some? {
      assert IsPresented(read, found.value, rq.userId, rq.hash);
    }
  }

  /** Logging out everywhere revokes exactly the unrevoked tokens of the user, and logging in adds one. */
  lemma LogoutAllRevokes(userId: Id, now: Time, newHash: string, expiresAt: Time, read: seq<Token>, cur: seq<Token>)
    ensures var after := Perform(LogoutAll(userId, now), read, cur).tokens;
            && |after| == |cur|
            && forall k :: 0 <= k < |cur| ==>
                 after[k] == if cur[k].userId == userId && cur[k].revokedAt == None
                             then cur[k].(revokedAt := Some(now)) else cur[k]
    ensures Perform(Login(userId, newHash, expiresAt), read, cur)
            == Outcome(cur + [Token(userId, newHash, expiresAt, None)], None)
  {
  }

  // ---------- Runs ----------

  datatype Event = Event(rq: Request, read: nat)

  /** Any interleaving: a request may have read the table at any earlier moment. New tokens carry a random
      identifier, so no two have one hash. */
  ghost predicate Run(states: seq<seq<Token>>, events: seq<Event>) {
    && |states| == |events| + 1 && states[0] == []
    && forall i :: 0 <= i < |events| ==> Follows(states, events, i)
  }

  ghost predicate Follows(states: seq<seq<Token>>, events: seq<Event>, i: nat)
    requires i < |events| && |states| == |events| + 1
  {
    var e := events[i];
    && e.read <= i
    && states[i + 1] == Perform(e.rq, states[e.read], states[i]).tokens
    && (e.rq.Login? || e.rq.Refresh? ==> forall t :: t in states[i] ==> t.hash != e.rq.newHash)
  }

  ghost predicate Issued(states: seq<seq<Token>>, events: seq<Event>, i: nat)
    requires i < |events| && Run(states, events)
  {
    assert Follows(states, events, i);
    Issues(events[i].rq, states[events[i].read], states[i])
  }

  // ---------- What a step keeps ----------

  /** The same tokens, perhaps revoked since, and more. */
  ghost predicate Grown(a: seq<Token>, b: seq<Token>) {
    && |a| <= |b|
    && forall k :: 0 <= k < |a| ==>
         a[k].userId == b[k].userId && a[k].hash == b[k].hash && a[k].expiresAt == b[k].expiresAt
                                    && (a[k].revokedAt.Some? ==> b[k].revokedAt.Some?)
  }

  ghost predicate DistinctHashes(tokens: seq<Token>) {
    forall i, j :: 0 <= i < j < |tokens| ==> tokens[i].hash != tokens[j].hash
  }

  lemma {:induction false} TableGrows(states: seq<seq<Token>>, events: seq<Event>, i: nat, j: nat)
    requires Run(states, events) && i <= j < |states|
    ensures Grown(states[i], states[j])
  {
    if i < j {
      TableGrows(states, events, i, j - 1);
      assert Follows(states, events, j - 1);
      var e := events[j - 1];
      StepGrows(e.rq, states[e.read], states[j - 1]);
    }
  }

  lemma StepGrows(rq: Request, read: seq<Token>, cur: seq<Token>)
    ensures Grown(cur, Perform(rq, read, cur).tokens)
    ensures |Perform(rq, read, cur).tokens| == |cur| + if Issues(rq, read, cur) then 1 else 0
  {
    hide FindActive;
  }

  lemma {:induction false} HashesAreDistinct(states: seq<seq<Token>>, events: seq<Event>, i: nat)
    requires Run(states, events) && i < |states|
    ensures DistinctHashes(states[i])
  {
    if i > 0 {
      HashesAreDistinct(states, events, i - 1);
      assert Follows(states, events, i - 1);
      var e := events[i - 1];
      StepKeepsHashes(e.rq, states[e.read], states[i - 1]);
    }
  }

  lemma StepKeepsHashes(rq: Request, read: seq<Token>, cur: seq<Token>)
    requires DistinctHashes(cur)
    requires rq.Login? || rq.Refresh? ==> forall t :: t in cur ==> t.hash != rq.newHash
    ensures DistinctHashes(Perform(rq, read, cur).tokens)
  {
    hide FindActive;
    StepGrows(rq, read, cur);
    var after := Perform(rq, read, cur).tokens;
    forall i, j | 0 <= i < j < |after| ensures after[i].hash != after[j].hash {
      if j == |cur| {
        assert cur[i] in cur;
      }
    }
  }

  // ---------- One token, one successor ----------

  /** However many requests present one token, in whatever interleaving, at most one obtains a new pair. */
  lemma OneTokenOneRefresh(states: seq<seq<Token>>, events: seq<Event>, i: nat, j: nat)
    requires Run(states, events) && i < j < |events|
    requires events[i].rq.Refresh? && events[j].rq.Refresh? && events[i].rq.hash == events[j].rq.hash
    requires Issued(states, events, i)
    ensures !Issued(states, events, j)
  {
    hide FindActive;
    assert Follows(states, events, i) && Follows(states, events, j);
    var a, b := events[i], events[j];
    var k, l := Present(a.rq, states[a.read]).0.value, Present(b.rq, states[b.read]).0;
    if l.Some? {
      TableGrows(states, events, a.read, i);
      TableGrows(states, events, i, i + 1);
      TableGrows(states, events, i + 1, j);
      TableGrows(states, events, b.read, j);
      HashesAreDistinct(states, events, j);
      assert states[j][k].hash == states[j][l.value].hash;
      assert k == l.value;
    }
  }

  // ---------- Chains ----------

  /** Which token each was issued for: none for a login, the rotated one for a refresh. */
  ghost function NextParents(rq: Request, read: seq<Token>, cur: seq<Token>,
                             parents: seq<Option<nat>>): seq<Option<nat>> {
    if !Issues(rq, read, cur) then parents
    else if rq.Login? then parents + [None]
    else parents + [Present(rq, read).0]
  }

  ghost function Parents(states: seq<seq<Token>>, events: seq<Event>, i: nat): seq<Option<nat>>
    requires Run(states, events) && i < |states|
  {
    if i == 0 then []
    else
      assert Follows(states, events, i - 1);
      var e := events[i - 1];
      NextParents(e.rq, states[e.read], states[i - 1], Parents(states, events, i - 1))
  }

  /** Parents come first, no token has two children, and a token with a child is revoked. */
  ghost predicate Linear(tokens: seq<Token>, parents: seq<Option<nat>>) {
    && |parents| == |tokens|
    && (forall k :: 0 <= k < |parents| && parents[k].Some? ==>
          parents[k].value < k && tokens[parents[k].value].revokedAt.Some?
            && tokens[parents[k].value].userId == tokens[k].userId)
    && forall k, l :: 0 <= k < l < |parents| && parents[k].Some? ==> parents[k] != parents[l]
  }

  lemma {:induction false} ChainsAreLinear(states: seq<seq<Token>>, events: seq<Event>, i: nat)
    requires Run(states, events) && i < |states|
    ensures Linear(states[i], Parents(states, events, i))
  {
    if i > 0 {
      ChainsAreLinear(states, events, i - 1);
      assert Follows(states, events, i - 1);
      var e := events[i - 1];
      TableGrows(states, events, e.read, i - 1);
      StepKeepsLinear(e.rq, states[e.read], states[i - 1], Parents(states, events, i - 1));
    }
  }

  lemma StepKeepsLinear(rq: Request, read: seq<Token>, cur: seq<Token>, parents: seq<Option<nat>>)
    requires Linear(cur, parents) && Grown(read, cur)
    ensures Linear(Perform(rq, read, cur).tokens, NextParents(rq, read, cur, parents))
  {
    hide FindActive;
    StepGrows(rq, read, cur);
  }

  /** The login a token goes back to. */
  ghost function Root(parents: seq<Option<nat>>, k: nat): (r: nat)
    requires k < |parents| && forall i :: 0 <= i < |parents| && parents[i].Some? ==> parents[i].value < i
    ensures r <= k
  {
    if parents[k].None? then k else Root(parents, parents[k].value)
  }

  /** Of two tokens of one chain, the earlier has a child, no later than the other. */
  lemma {:induction false} EarlierHasAChild(tokens: seq<Token>, parents: seq<Option<nat>>, a: nat, b: nat)
    returns (c: nat)
    requires Linear(tokens, parents) && a < b < |parents| && Root(parents, a) == Root(parents, b)
    ensures a < c <= b && parents[c] == Some(a)
    decreases b
  {
    var p := parents[b].value;
    if p == a {
      c := b;
    } else if a < p {
      c := EarlierHasAChild(tokens, parents, a, p);
    } else {
      c := EarlierHasAChild(tokens, parents, p, a);
      assert false;
    }
  }

  /** In every interleaving a login's chain of tokens has at most one that is not revoked. */
  lemma OneActiveTokenPerChain(states: seq<seq<Token>>, events: seq<Event>, i: nat, a: nat, b: nat)
    requires Run(states, events) && i < |states| && a < b < |states[i]|
    ensures var parents := Parents(states, events, i);
            Linear(states[i], parents) && (Root(parents, a) == Root(parents, b) ==> states[i][a].revokedAt.Some?)
  {
    ChainsAreLinear(states, events, i);
    var parents := Parents(states, events, i);
    if Root(parents, a) == Root(parents, b) {
      var c := EarlierHasAChild(states[i], parents, a, b);
    }
  }

  // ---------- Logging out ----------

  /** No token of the chain is active. */
  ghost predicate Dead(tokens: seq<Token>, parents: seq<Option<nat>>, root: nat)
    requires Linear(tokens, parents)
  {
    forall k :: 0 <= k < |tokens| && Root(parents, k) == root ==> tokens[k].revokedAt.Some?
  }

  lemma {:induction false} RootKept(parents: seq<Option<nat>>, more: seq<Option<nat>>, k: nat)
    requires k < |parents| && forall i :: 0 <= i < |more| && more[i].Some? ==> more[i].value < i
    requires parents <= more
    ensures Root(parents, k) == Root(more, k)
  {
    if parents[k].Some? {
      RootKept(parents, more, parents[k].value);
    }
  }

  /** A dead chain stays dead: a refresh needs a parent that is still active. */
  lemma StepKeepsDead(rq: Request, read: seq<Token>, cur: seq<Token>, parents: seq<Option<nat>>, root: nat)
    requires Linear(cur, parents) && Grown(read, cur) && root < |cur| && Dead(cur, parents, root)
    ensures var next := NextParents(rq, read, cur, parents);
            Linear(Perform(rq, read, cur).tokens, next) && Dead(Perform(rq, read, cur).tokens, next, root)
  {
    hide FindActive;
    StepKeepsLinear(rq, read, cur, parents);
    StepGrows(rq, read, cur);
    var after, next := Perform(rq, read, cur).tokens, NextParents(rq, read, cur, parents);
    assert parents <= next;
    forall k | 0 <= k < |after| && Root(next, k) == root ensures after[k].revokedAt.Some? {
      if k < |cur| {
        RootKept(parents, next, k);
      } else if next[k].Some? {
        RootKept(parents, next, next[k].value);
      }
    }
  }

  lemma {:induction false} DeadStaysDead(states: seq<seq<Token>>, events: seq<Event>, i: nat, j: nat, root: nat)
    requires Run(states, events) && i <= j < |states| && root < |states[i]|
    requires Linear(states[i], Parents(states, events, i)) && Dead(states[i], Parents(states, events, i), root)
    ensures Linear(states[j], Parents(states, events, j)) && Dead(states[j], Parents(states, events, j), root)
  {
    if i < j {
      DeadStaysDead(states, events, i, j - 1, root);
      assert Follows(states, events, j - 1);
      var e := events[j - 1];
      TableGrows(states, events, e.read, j - 1);
      TableGrows(states, events, i, j - 1);
      StepKeepsDead(e.rq, states[e.read], states[j - 1], Parents(states, events, j - 1), root);
    }
  }

  lemma {:induction false} ChainHasOneUser(tokens: seq<Token>, parents: seq<Option<nat>>, k: nat)
    requires Linear(tokens, parents) && k < |tokens|
    ensures tokens[Root(parents, k)].userId == tokens[k].userId
  {
    if parents[k].Some? {
      ChainHasOneUser(tokens, parents, parents[k].value);
    }
  }

  /** After logging out everywhere no login of the user made before has an active token ever again, whatever
      refresh was under way. */
  lemma LogoutAllEndsEveryChain(states: seq<seq<Token>>, events: seq<Event>, i: nat, j: nat, root: nat)
    requires Run(states, events) && i < j < |states| && events[i].rq.LogoutAll?
    requires root < |states[i]| && states[i][root].userId == events[i].rq.userId
    ensures Linear(states[j], Parents(states, events, j)) && Dead(states[j], Parents(states, events, j), root)
  {
    assert Follows(states, events, i);
    ChainsAreLinear(states, events, i + 1);
    var after, parents := states[i + 1], Parents(states, events, i + 1);
    forall k | 0 <= k < |after| && Root(parents, k) == root ensures after[k].revokedAt.Some? {
      ChainHasOneUser(after, parents, k);
    }
    DeadStaysDead(states, events, i + 1, j, root);
  }

  lemma RevokingEndsChainIff(tokens: seq<Token>, parents: seq<Option<nat>>, k: nat, now: Time)
    requires Linear(tokens, parents) && k < |tokens|
    ensures var root := Root(parents, k);
            Linear(Revoked(tokens, k, now), parents)
            && (Dead(Revoked(tokens, k, now), parents, root)
                <==> tokens[k].revokedAt.None? || Dead(tokens, parents, root))
  {
    var root, after := Root(parents, k), Revoked(tokens, k, now);
    if tokens[k].revokedAt.None? {
      forall l | 0 <= l < |after| && Root(parents, l) == root ensures after[l].revokedAt.Some? {
        if k < l {
          var c := EarlierHasAChild(tokens, parents, k, l);
        } else if l < k {
          var c := EarlierHasAChild(tokens, parents, l, k);
        }
      }
    } else if Dead(after, parents, root) {
      forall l | 0 <= l < |tokens| && Root(parents, l) == root ensures tokens[l].revokedAt.Some? {
        assert after[l].revokedAt.Some?;
      }
    }
  }

  /** What a logout revokes: the row with the presented hash, if it was still active when looked up. */
  lemma LogoutRevokes(states: seq<seq<Token>>, events: seq<Event>, i: nat, k: nat)
    requires Run(states, events) && i < |events| && events[i].rq.Logout? && events[i].read <= i
    requires k < |states[events[i].read]| && states[events[i].read][k].hash == events[i].rq.hash
    requires states[events[i].read][k].userId == events[i].rq.userId
    ensures k < |states[i]| && |states[i + 1]| == |states[i]|
    ensures states[i + 1]
            == if states[events[i].read][k].revokedAt.None? then Revoked(states[i], k, events[i].rq.now) else states[i]
    ensures states[events[i].read][k].revokedAt.Some? ==> states[i][k].revokedAt.Some?
    ensures Parents(states, events, i + 1) == Parents(states, events, i)
  {
    assert Follows(states, events, i);
    TableGrows(states, events, events[i].read, i);
    HashesAreDistinct(states, events, events[i].read);
  }

  /** A logout with a token of the user ends the token's login exactly if the token has not been rotated by the
      time the logout commits, or the login has ended already. A token rotated before the look-up is not
      found, one rotated after it is revoked once more: either way its successor stays active. */
  lemma LogoutEndsChainIff(states: seq<seq<Token>>, events: seq<Event>, i: nat, k: nat)
    requires Run(states, events) && i < |events| && events[i].rq.Logout? && events[i].read <= i
    requires k < |states[events[i].read]| && states[events[i].read][k].hash == events[i].rq.hash
    requires states[events[i].read][k].userId == events[i].rq.userId
    ensures var before, after := Parents(states, events, i), Parents(states, events, i + 1);
            && k < |states[i]| && Linear(states[i], before) && Linear(states[i + 1], after)
            && (Dead(states[i + 1], after, Root(after, k))
                <==> states[i][k].revokedAt.None? || Dead(states[i], before, Root(before, k)))
  {
    hide Revoked, Follows;
    LogoutRevokes(states, events, i, k);
    ChainsAreLinear(states, events, i);
    ChainsAreLinear(states, events, i + 1);
    RevokingEndsChainIff(states[i], Parents(states, events, i), k, events[i].rq.now);
  }

  lemma StaleSteps(userId: Id, first: string, second: string, t: Time)
    requires first != second
    ensures var one := [Token(userId, first, t + 9, None)];
            var two := [Token(userId, first, t + 9, Some(t)), Token(userId, second, t + 9, None)];
            var three := [Token(userId, first, t + 9, Some(t + 1)), Token(userId, second, t + 9, None)];
            var login, refresh := Login(userId, first, t + 9), Refresh(userId, first, second, t + 9, t, t, true);
            && Perform(login, [], []).tokens == one && NextParents(login, [], [], []) == [None]
            && Perform(refresh, one, one).tokens == two && NextParents(refresh, one, one, [None]) == [None, Some(0)]
            && Perform(Logout(userId, first, t + 1), one, two).tokens == three
            && NextParents(Logout(userId, first, t + 1), one, two, [None, Some(0)]) == [None, Some(0)]
            && Perform(Logout(userId, first, t + 1), two, two).tokens == two
            && NextParents(Logout(userId, first, t + 1), two, two, [None, Some(0)]) == [None, Some(0)]
  {
  }

  lemma LogoutRun(userId: Id, first: string, second: string, t: Time, stale: bool)
    returns (states: seq<seq<Token>>, events: seq<Event>)
    requires first != second
    ensures Run(states, events) && |events| == 3
    ensures events[2] == Event(Logout(userId, first, t + 1), if stale then 1 else 2)
    ensures |states[3]| == 2 && Parents(states, events, 3) == [None, Some(0)]
    ensures states[3][0].hash == first && states[3][1].revokedAt.None?
  {
    var one := [Token(userId, first, t + 9, None)];
    var two := [Token(userId, first, t + 9, Some(t)), Token(userId, second, t + 9, None)];
    var three := [Token(userId, first, t + 9, Some(t + 1)), Token(userId, second, t + 9, None)];
    events := [Event(Login(userId, first, t + 9), 0), Event(Refresh(userId, first, second, t + 9, t, t, true), 1),
               Event(Logout(userId, first, t + 1), if stale then 1 else 2)];
    states := [[], one, two, if stale then three else two];
    StaleSteps(userId, first, second, t);
    hide Perform, NextParents, FindActive;
    assert Follows(states, events, 0) && Follows(states, events, 1) && Follows(states, events, 2);
    assert Parents(states, events, 1) == [None];
    assert Parents(states, events, 2) == [None, Some(0)];
  }

  /** Such runs exist for any user: a login, a refresh, and a logout with the first token, which looked it up
      before the refresh or after it, leave the token the refresh issued. */
  lemma LogoutLeavesTheSuccessor(userId: Id, first: string, second: string, t: Time, stale: bool)
    requires first != second
    ensures exists states: seq<seq<Token>>, events: seq<Event> ::
              Run(states, events) && |events| == 3
                && events[2] == Event(Logout(userId, first, t + 1), if stale then 1 else 2)
              && |states[3]| == 2 && Parents(states, events, 3) == [None, Some(0)]
              && states[3][0].hash == first && states[3][1].revokedAt.None?
  {
    var states, events := LogoutRun(userId, first, second, t, stale);
    assert Run(states, events);
  }
}
