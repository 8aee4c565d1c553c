/** What a call of `try_load_auth_token` returns. */
module TokenResults {
  import opened Prelude
  import opened TokenRefresh

  // ----- A call on its own -----

  /** The call `Call(t, url)` is possible, and in `s` the store holds `c`. */
  predicate CanCall(s: State, t: ThreadId) {
    t in s.threads ==> s.threads[t].pc.Done?
  }

  /** The state in which the call of `t` has returned `result` and nothing else has changed. */
  function Returned(s: State, t: ThreadId, url: string, result: Option<Token>): State {
    s.(threads := s.threads[t := Thread(url, Done(result))])
  }

  lemma {:induction false} CallThen(cfg: Config, s: State, t: ThreadId, url: string, n: nat)
    requires CanCall(s, t)
    ensures Run(cfg, s, [Call(t, url)] + Alone(t, n))
         == Run(cfg, s.(threads := s.threads[t := Thread(url, Load)]), Alone(t, n))
  {
    hide Run, Alone;
    RunCons(cfg, s, Call(t, url), s.(threads := s.threads[t := Thread(url, Load)]), Alone(t, n));
  }

  lemma {:induction false} OneStep(cfg: Config, s: State, t: ThreadId, next: State)
    requires t in s.threads && Advance(cfg, s, t) == Some(next)
    ensures Run(cfg, s, Alone(t, 1)) == Some(next)
  {
    hide Advance;
    AloneStep(cfg, s, t, 1);
    RunNothing(cfg, next, t);
  }

  lemma {:induction false} SameThreads(s: State, t: ThreadId, x: Thread, y: Thread)
    ensures s.threads[t := x][t := y] == s.threads[t := y]
  {
  }

  /** Usable credentials of the call's server: the stored access token, at once, and without the lock. */
  lemma {:induction false} UsableTokenReturned(cfg: Config, s: State, t: ThreadId, url: string, c: Credentials,
                                               server: string)
    requires CanCall(s, t) && s.store == Some(c)
    requires c.serverUrl == Some(server) && cfg.normalize(server) == cfg.normalize(url)
    requires c.refreshExpiresAt > s.now && c.accessExpiresAt > s.now + 300
    ensures Run(cfg, s, [Call(t, url)] + Alone(t, 3)) == Some(Returned(s, t, url, Some(c.accessToken)))
  {
    hide Run, Alone;
    CallThen(cfg, s, t, url, 3);
    var s0 := s.(threads := s.threads[t := Thread(url, Load)]);
    CheckedTokenReturned(cfg, s0, t, url, c, 2, SetPc(s0, t, CheckRefresh(c)));
    AloneStep(cfg, s0, t, 3);
    SameThreads(s, t, Thread(url, Load), Thread(url, Done(Some(c.accessToken))));
  }

  /** From the first look at the credentials on. */
  lemma {:induction false} CheckedTokenReturned(cfg: Config, s: State, t: ThreadId, url: string, c: Credentials,
                                                n: nat, s1: State)
    requires t in s.threads && s.threads[t].url == url && n == 2
    requires !Holding(s.threads[t].pc) && s1 == SetPc(s, t, CheckRefresh(c))
    requires c.refreshExpiresAt > s.now && c.accessExpiresAt > s.now + 300
    ensures Run(cfg, s1, Alone(t, n)) == Some(Returned(s, t, url, Some(c.accessToken)))
  {
    hide Run, Alone;
    AloneStep(cfg, s1, t, 2);
    var s2 := Advance(cfg, s1, t).value;
    OneStep(cfg, s2, t, Advance(cfg, s2, t).value);
    assert Advance(cfg, s2, t).value.threads == s.threads[t := Thread(url, Done(Some(c.accessToken)))];
  }

  /** Legacy credentials are good for the configured server only, and are bound to it on the way. */
  lemma {:induction false} LegacyTokenReturned(cfg: Config, s: State, t: ThreadId, url: string, c: Credentials)
    requires CanCall(s, t) && s.store == Some(c)
    requires c.serverUrl == None && cfg.normalize(cfg.configuredUrl) == cfg.normalize(url)
    requires c.refreshExpiresAt > s.now && c.accessExpiresAt > s.now + 300
    ensures var bound := s.(store := Some(c.(serverUrl := Some(cfg.normalize(url)))));
            Run(cfg, s, [Call(t, url)] + Alone(t, 4)) == Some(Returned(bound, t, url, Some(c.accessToken)))
  {
    hide Run, Alone;
    CallThen(cfg, s, t, url, 4);
    var bound := c.(serverUrl := Some(cfg.normalize(url)));
    var s0 := s.(threads := s.threads[t := Thread(url, Load)]);
    AloneStep(cfg, s0, t, 4);
    var s1 := Advance(cfg, s0, t).value;
    AloneStep(cfg, s1, t, 3);
    var s2 := s1.(store := Some(bound));
    CheckedTokenReturned(cfg, s2, t, url, bound, 2, SetPc(s2, t, CheckRefresh(bound)));
    assert Returned(s2, t, url, Some(c.accessToken)).threads == s.threads[t := Thread(url, Done(Some(c.accessToken)))];
  }

  /** Without a login, and with one of another server, there is no token. */
  lemma {:induction false} NoLoginNoToken(cfg: Config, s: State, t: ThreadId, url: string)
    requires CanCall(s, t)
    requires match s.store
             case None => true
             case Some(c) =>
               match c.serverUrl
               case Some(server) => cfg.normalize(server) != cfg.normalize(url)
               case None => cfg.normalize(cfg.configuredUrl) != cfg.normalize(url)
    ensures Run(cfg, s, [Call(t, url)] + Alone(t, 1)) == Some(Returned(s, t, url, None))
  {
    hide Run, Alone;
    CallThen(cfg, s, t, url, 1);
    var s0 := s.(threads := s.threads[t := Thread(url, Load)]);
    OneStep(cfg, s0, t, Advance(cfg, s0, t).value);
    SameThreads(s, t, Thread(url, Load), Thread(url, Done(None)));
  }

  /** Nor with one that has run out. */
  lemma {:induction false} ExpiredLoginNoToken(cfg: Config, s: State, t: ThreadId, url: string, c: Credentials,
                                               server: string)
    requires CanCall(s, t) && s.store == Some(c)
    requires c.serverUrl == Some(server) && cfg.normalize(server) == cfg.normalize(url)
    requires c.refreshExpiresAt <= s.now
    ensures Run(cfg, s, [Call(t, url)] + Alone(t, 2)) == Some(Returned(s, t, url, None))
  {
    hide Run, Alone;
    CallThen(cfg, s, t, url, 2);
    var s0 := s.(threads := s.threads[t := Thread(url, Load)]);
    AloneStep(cfg, s0, t, 2);
    var s1 := Advance(cfg, s0, t).value;
    OneStep(cfg, s1, t, Advance(cfg, s1, t).value);
    assert Advance(cfg, s1, t).value.threads == s.threads[t := Thread(url, Done(None))];
  }

  /** An access token that is about to expire: the call goes to the server with the stored refresh token, locked. */
  lemma {:induction false} ExpiringTokenRefreshed(cfg: Config, s: State, t: ThreadId, url: string, c: Credentials,
                                                  server: string)
    requires CanCall(s, t) && s.store == Some(c) && !s.poisoned && s.holder == None
    requires c.serverUrl == Some(server) && cfg.normalize(server) == cfg.normalize(url)
    requires c.refreshExpiresAt > s.now && c.accessExpiresAt <= s.now + 300
    ensures Run(cfg, s, [Call(t, url)] + Alone(t, 7))
         == Some(s.(holder := Some(t), threads := s.threads[t := Thread(url, Refreshing(c))]))
  {
    hide Run, Alone;
    CallThen(cfg, s, t, url, 7);
    var s0 := s.(threads := s.threads[t := Thread(url, Load)]);
    AloneStep(cfg, s0, t, 7);
    var s1 := Advance(cfg, s0, t).value;
    CheckedPath(cfg, s1, t, c);
    assert AtServer(s1, t, c).threads == s.threads[t := Thread(url, Refreshing(c))];
  }

  /** The server's answer is returned and the lock is free again, whether or not the answer could be stored. */
  lemma {:induction false} RenewedTokenReturned(cfg: Config, s: State, t: ThreadId, renewed: Credentials, stored: bool)
    requires t in s.threads && s.threads[t].pc.Refreshing?
    requires renewed.serverUrl == Some(cfg.normalize(s.threads[t].url)) && renewed.refreshToken !in s.issued
    ensures var r := Run(cfg, s, [ServerAnswers(t, renewed), if stored then Proceed(t) else StoreFails(t)]);
            && r.Some? && r.value.store == (if stored then Some(renewed) else s.store) && r.value.holder == None
            && r.value.threads == s.threads[t := Thread(s.threads[t].url, Done(Some(renewed.accessToken)))]
  {
    hide Run;
    var last := if stored then Proceed(t) else StoreFails(t);
    var s1 := Step(cfg, s, ServerAnswers(t, renewed)).value;
    RunEmpty(cfg, s);
    Then(cfg, s, [], s, ServerAnswers(t, renewed));
    assert [] + [ServerAnswers(t, renewed)] == [ServerAnswers(t, renewed)];
    Then(cfg, s, [ServerAnswers(t, renewed)], s1, last);
    assert [ServerAnswers(t, renewed)] + [last] == [ServerAnswers(t, renewed), last];
    SameThreads(s, t, s1.threads[t], Thread(s.threads[t].url, Done(Some(renewed.accessToken))));
  }

  /** If the server refuses there is no token, and the lock is free again. */
  lemma {:induction false} RefusedNoToken(cfg: Config, s: State, t: ThreadId)
    requires t in s.threads && s.threads[t].pc.Refreshing?
    ensures Step(cfg, s, ServerRefuses(t))
         == Some(Returned(s.(holder := None), t, s.threads[t].url, None))
  {
  }

  /** A panic under the lock poisons it, and that lasts; a panic elsewhere does not. */
  lemma {:induction false} PanicPoisons(cfg: Config, s: State, t: ThreadId)
    requires LockOk(s) && t in s.threads && !s.threads[t].pc.Done?
    ensures var next := Step(cfg, s, Crash(t));
            && next.Some? && next.value.poisoned == (s.poisoned || s.holder == Some(t))
            && next.value.holder == (if s.holder == Some(t) then None else s.holder)
            && next.value.threads == s.threads[t := Thread(s.threads[t].url, Done(None))]
  {
    assert Locked(s, t);
  }

  lemma {:induction false} PoisonStays(cfg: Config, s: State, a: Action)
    requires s.poisoned && Step(cfg, s, a).Some?
    ensures Step(cfg, s, a).value.poisoned
  {
  }

  /** Then no call gets a new token: one that needs it returns nothing. */
  lemma {:induction false} PoisonedNoRefresh(cfg: Config, s: State, t: ThreadId, url: string, c: Credentials,
                                             server: string)
    requires CanCall(s, t) && s.store == Some(c) && s.poisoned
    requires c.serverUrl == Some(server) && cfg.normalize(server) == cfg.normalize(url)
    requires c.refreshExpiresAt > s.now && c.accessExpiresAt <= s.now + 300
    ensures Run(cfg, s, [Call(t, url)] + Alone(t, 4)) == Some(Returned(s, t, url, None))
  {
    hide Run, Alone;
    CallThen(cfg, s, t, url, 4);
    var s0 := s.(threads := s.threads[t := Thread(url, Load)]);
    AloneStep(cfg, s0, t, 4);
    var s1 := Advance(cfg, s0, t).value;
    AloneStep(cfg, s1, t, 3);
    var s2 := Advance(cfg, s1, t).value;
    AloneStep(cfg, s2, t, 2);
    var s3 := Advance(cfg, s2, t).value;
    OneStep(cfg, s3, t, Advance(cfg, s3, t).value);
    assert Advance(cfg, s3, t).value.threads == s.threads[t := Thread(url, Done(None))];
  }

  // ----- Every result in every run -----

  predicate IsCallOf(a: Action, t: ThreadId) {
    a.Call? && a.t == t
  }

  /** The call of `t` that runs before action `i` began with action `b`. */
  ghost predicate Began(acts: seq<Action>, i: nat, t: ThreadId, url: string, b: nat) {
    b < i <= |acts| && acts[b] == Call(t, url) && forall k | b < k < i :: !IsCallOf(acts[k], t)
  }

  /** `c` is what a call for `url` makes of the stored credentials `stored`: theirs, bound to a server. */
  ghost predicate ReadsAs(cfg: Config, stored: Credentials, url: string, c: Credentials) {
    match stored.serverUrl
    case Some(server) => c == stored && cfg.normalize(server) == cfg.normalize(url)
    case None => c == stored.(serverUrl := Some(cfg.normalize(url)))
                 && cfg.normalize(cfg.configuredUrl) == cfg.normalize(url)
  }

  ghost predicate ReadAt(cfg: Config, s: State, url: string, c: Credentials) {
    s.store.Some? && ReadsAs(cfg, s.store.value, url, c)
  }

  /** Between `b` and `i` the store held credentials that a call for `url` reads as `c`. */
  ghost predicate FromStore(cfg: Config, s: State, acts: seq<Action>, b: nat, i: nat, url: string, c: Credentials)
    requires IsRun(cfg, s, acts) && i <= |acts|
  {
    exists k: nat | b < k < i :: ReadAt(cfg, At(cfg, s, acts, k), url, c)
  }

  /** Between `b` and `i` the login behind `c` was seen not to have expired. */
  ghost predicate LoginLived(cfg: Config, s: State, acts: seq<Action>, b: nat, i: nat, c: Credentials)
    requires IsRun(cfg, s, acts) && i <= |acts|
  {
    exists k: nat | b < k < i :: At(cfg, s, acts, k).now < c.refreshExpiresAt
  }

  /** Between `b` and `i` the server of `url` gave `c` to `t`. */
  ghost predicate Answered(cfg: Config, acts: seq<Action>, b: nat, i: nat, t: ThreadId, url: string, c: Credentials)
    requires i <= |acts|
  {
    c.serverUrl == Some(cfg.normalize(url)) && exists k: nat | b < k < i :: acts[k] == ServerAnswers(t, c)
  }

  /** What is behind the credentials that a running call has in hand. */
  ghost predicate Story(cfg: Config, s: State, acts: seq<Action>, i: nat, t: ThreadId, b: nat, url: string, pc: Pc)
    requires IsRun(cfg, s, acts) && i <= |acts|
  {
    && Began(acts, i, t, url, b)
    && (HasCreds(pc) ==> FromStore(cfg, s, acts, b, i, url, pc.creds))
    && (pc.CheckAccess? || pc.RecheckAccess? || pc.Refreshing? ==> LoginLived(cfg, s, acts, b, i, pc.creds))
    && (pc.Storing? ==> Answered(cfg, acts, b, i, t, url, pc.renewed))
  }

  /** How one action changes a call that still runs afterwards. */
  ghost predicate Moves(cfg: Config, s: State, a: Action, t: ThreadId, url: string, pc: Pc, pc': Pc) {
    && (HasCreds(pc') ==> (HasCreds(pc) && pc.creds == pc'.creds) || ReadAt(cfg, s, url, pc'.creds))
    && (pc'.CheckAccess? || pc'.RecheckAccess? ==> s.now < pc'.creds.refreshExpiresAt)
    && (pc'.Refreshing? ==> pc.RecheckAccess? && pc.creds == pc'.creds)
    && (pc'.Storing? ==> a == ServerAnswers(t, pc'.renewed) && pc'.renewed.serverUrl == Some(cfg.normalize(url)))
  }

  lemma {:induction false} LoadedMoves(cfg: Config, s: State, t: ThreadId, again: bool)
    requires t in s.threads
    ensures var th, th' := s.threads[t], Loaded(cfg, s, t, again).threads[t];
            th'.url == th.url && (!th'.pc.Done? ==> Moves(cfg, s, Proceed(t), t, th.url, th.pc, th'.pc))
  {
  }

  lemma {:induction false} AdvanceMoves(cfg: Config, s: State, t: ThreadId)
    requires t in s.threads && Advance(cfg, s, t).Some?
    ensures var th, th' := s.threads[t], Advance(cfg, s, t).value.threads[t];
            th'.url == th.url && (!th'.pc.Done? ==> Moves(cfg, s, Proceed(t), t, th.url, th.pc, th'.pc))
  {
    hide Loaded, ReadAt, Moves;
    match s.threads[t].pc {
      case Load => LoadedMoves(cfg, s, t, false);
      case Reload => LoadedMoves(cfg, s, t, true);
      case _ => CheckMoves(cfg, s, t);
    }
  }

  lemma {:induction false} CheckMoves(cfg: Config, s: State, t: ThreadId)
    requires t in s.threads && Advance(cfg, s, t).Some? && !s.threads[t].pc.Load? && !s.threads[t].pc.Reload?
    ensures var th, th' := s.threads[t], Advance(cfg, s, t).value.threads[t];
            th'.url == th.url && (!th'.pc.Done? ==> Moves(cfg, s, Proceed(t), t, th.url, th.pc, th'.pc))
  {
    hide Loaded, ReadAt;
  }

  /** A call that runs after an action: it has just begun, it did not take part, or it moved on. */
  lemma {:induction false} StepMoves(cfg: Config, s: State, a: Action, t: ThreadId)
    requires Step(cfg, s, a).Some?
    requires var next := Step(cfg, s, a).value; t in next.threads && !next.threads[t].pc.Done?
    ensures var next := Step(cfg, s, a).value;
            if IsCallOf(a, t) then next.threads[t] == Thread(a.url, Load)
            else
              && t in s.threads && !s.threads[t].pc.Done? && next.threads[t].url == s.threads[t].url
              && (next.threads[t] == s.threads[t]
                  || Moves(cfg, s, a, t, s.threads[t].url, s.threads[t].pc, next.threads[t].pc))
  {
    if a == Proceed(t) {
      AdvanceMoves(cfg, s, t);
      assert !s.threads[t].pc.Done?;
      hide Advance, Moves;
    } else {
      hide Loaded, ReadAt;
    }
  }

  lemma {:induction false} StoryGrows(cfg: Config, s: State, acts: seq<Action>, i: nat, t: ThreadId, b: nat,
                                      url: string, pc: Pc)
    requires IsRun(cfg, s, acts) && i < |acts| && Story(cfg, s, acts, i, t, b, url, pc) && !IsCallOf(acts[i], t)
    ensures Story(cfg, s, acts, i + 1, t, b, url, pc)
  {
    hide At, IsRun, ReadAt;
  }

  lemma {:induction false} StoryMoves(cfg: Config, s: State, acts: seq<Action>, i: nat, t: ThreadId, b: nat,
                                      url: string, pc: Pc, pc': Pc)
    requires IsRun(cfg, s, acts) && i < |acts| && Story(cfg, s, acts, i, t, b, url, pc) && !IsCallOf(acts[i], t)
    requires Moves(cfg, At(cfg, s, acts, i), acts[i], t, url, pc, pc')
    ensures Story(cfg, s, acts, i + 1, t, b, url, pc')
  {
    StoryGrows(cfg, s, acts, i, t, b, url, pc);
    hide At, IsRun, ReadAt;
    assert b < i;
  }

  lemma {:induction false} StoryAlways(cfg: Config, s: State, acts: seq<Action>, i: nat, t: ThreadId) returns (b: nat)
    requires s.threads == map[] && IsRun(cfg, s, acts) && i <= |acts|
    requires t in At(cfg, s, acts, i).threads && !At(cfg, s, acts, i).threads[t].pc.Done?
    ensures var th := At(cfg, s, acts, i).threads[t]; Story(cfg, s, acts, i, t, b, th.url, th.pc)
  {
    hide At, IsRun, Step, Moves;
    b := 0;
    if i == 0 {
      AtStart(cfg, s, acts);
    } else {
      AtStep(cfg, s, acts, i - 1);
      StepMoves(cfg, At(cfg, s, acts, i - 1), acts[i - 1], t);
      var th' := At(cfg, s, acts, i).threads[t];
      if IsCallOf(acts[i - 1], t) {
        b := i - 1;
      } else {
        b := StoryAlways(cfg, s, acts, i - 1, t);
        var th := At(cfg, s, acts, i - 1).threads[t];
        if th' == th {
          StoryGrows(cfg, s, acts, i - 1, t, b, th.url, th.pc);
        } else {
          StoryMoves(cfg, s, acts, i - 1, t, b, th.url, th.pc, th'.pc);
        }
      }
    }
  }

  /** The action with which a call returns a token. */
  lemma {:induction false} StepReturns(cfg: Config, s: State, a: Action, t: ThreadId, x: Token)
    requires Step(cfg, s, a).Some? && t in s.threads && !s.threads[t].pc.Done?
    requires t in Step(cfg, s, a).value.threads && Step(cfg, s, a).value.threads[t].pc == Done(Some(x))
    ensures var pc := s.threads[t].pc;
            || ((pc.CheckAccess? || pc.RecheckAccess?) && pc.creds.accessToken == x
                && pc.creds.accessExpiresAt > s.now + 300)
            || (pc.Storing? && pc.renewed.accessToken == x)
  {
  }

  /**
   * Whatever other threads do and whatever fails: a call returns a token only if it is the access token of
   * credentials of the called server that the store held during the call, with a login that was seen alive and more
   * than 300 seconds left, or of those the called server gave in answer to this call.
   */
  lemma {:induction false} EveryResult(cfg: Config, s: State, acts: seq<Action>, i: nat, t: ThreadId, x: Token)
    returns (b: nat, c: Credentials)
    requires s.threads == map[] && IsRun(cfg, s, acts) && i < |acts|
    requires t in At(cfg, s, acts, i).threads && !At(cfg, s, acts, i).threads[t].pc.Done?
    requires t in At(cfg, s, acts, i + 1).threads && At(cfg, s, acts, i + 1).threads[t].pc == Done(Some(x))
    ensures c.accessToken == x && Began(acts, i, t, At(cfg, s, acts, i).threads[t].url, b)
    ensures var url := At(cfg, s, acts, i).threads[t].url;
            || (FromStore(cfg, s, acts, b, i, url, c) && LoginLived(cfg, s, acts, b, i, c)
                && c.accessExpiresAt > At(cfg, s, acts, i).now + 300)
            || Answered(cfg, acts, b, i, t, url, c)
  {
    hide At, IsRun, FromStore, LoginLived, Answered, Began;
    b := StoryAlways(cfg, s, acts, i, t);
    AtStep(cfg, s, acts, i);
    StepReturns(cfg, At(cfg, s, acts, i), acts[i], t, x);
    var pc := At(cfg, s, acts, i).threads[t].pc;
    c := if pc.Storing? then pc.renewed else pc.creds;
  }

  predicate LeavesAlone(a: Action, t: ThreadId) {
    !IsCallOf(a, t) && a != Crash(t)
  }

  /** The call has the new token, or is about to store it. */
  predicate Renewed(s: State, t: ThreadId, c: Credentials) {
    t in s.threads && s.threads[t].pc in {Storing(c), Done(Some(c.accessToken))}
  }

  lemma {:induction false} StepKeepsRenewed(cfg: Config, s: State, a: Action, t: ThreadId, c: Credentials)
    requires Step(cfg, s, a).Some? && Renewed(s, t, c) && LeavesAlone(a, t)
    ensures Renewed(Step(cfg, s, a).value, t, c)
  {
  }

  /** In every run: the answer of the server is what its caller ends with, unless the caller panics. */
  lemma {:induction false} AnswerIsReturned(cfg: Config, s: State, acts: seq<Action>, i: nat, j: nat, t: ThreadId,
                                            c: Credentials)
    requires IsRun(cfg, s, acts) && i < j <= |acts| && acts[i] == ServerAnswers(t, c)
    requires forall k | i < k < j :: LeavesAlone(acts[k], t)
    ensures Renewed(At(cfg, s, acts, j), t, c)
    decreases j - i
  {
    hide At, IsRun, LeavesAlone;
    AtStep(cfg, s, acts, j - 1);
    if i < j - 1 {
      AnswerIsReturned(cfg, s, acts, i, j - 1, t, c);
      StepKeepsRenewed(cfg, At(cfg, s, acts, j - 1), acts[j - 1], t, c);
    }
  }
}
