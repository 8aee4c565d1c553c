/** Token refresh by many threads (`try_load_auth_token`). */
module TokenRefresh {
  // Double-checked locking around a shared credential store.  One action is one atomic effect of one
  // thread: a store read or write, a look at the clock, a lock operation, or the answer of the server.
  import opened Prelude

  type ThreadId = nat
  type Token = nat

  const ACCESS_BUFFER_SECS := 300

  datatype Credentials = Credentials(serverUrl: Option<string>, accessToken: Token, refreshToken: Token,
                                     accessExpiresAt: int, refreshExpiresAt: int)

  predicate AccessExpired(c: Credentials, now: int) {
    c.accessExpiresAt <= now + ACCESS_BUFFER_SECS
  }

  predicate RefreshExpired(c: Credentials, now: int) {
    c.refreshExpiresAt <= now
  }

  /** The URL normalisation and the configured server, for legacy credentials without a server. */
  datatype Config = Config(normalize: string -> string, configuredUrl: string)

  /** `credentials_server_matches`. */
  predicate ServerMatches(cfg: Config, c: Credentials, target: string) {
    match c.serverUrl
    case Some(url) => cfg.normalize(url) == cfg.normalize(target)
    case None => cfg.normalize(cfg.configuredUrl) == cfg.normalize(target)
  }

  /** Where a call stands.  From `Reload` to `Storing` it holds the lock. */
  datatype Pc =
    | Load
    | BindFirst(creds: Credentials)
    | CheckRefresh(creds: Credentials)
    | CheckAccess(creds: Credentials)
    | Waiting
    | Reload
    | BindAgain(creds: Credentials)
    | RecheckRefresh(creds: Credentials)
    | RecheckAccess(creds: Credentials)
    | Refreshing(creds: Credentials)
    | Storing(renewed: Credentials)
    | Done(result: Option<Token>)

  datatype Thread = Thread(url: string, pc: Pc)

  /** `completed` lists the refresh tokens that finished refreshes presented; `issued` every refresh token so far. */
  datatype State = State(now: int, store: Option<Credentials>, holder: Option<ThreadId>, poisoned: bool,
                         threads: map<ThreadId, Thread>, completed: seq<Token>, issued: set<Token>)

  datatype Action =
    | Call(t: ThreadId, url: string)
    | Proceed(t: ThreadId)
    | LoadFails(t: ThreadId)
    | BindFails(t: ThreadId)
    | ServerAnswers(t: ThreadId, renewed: Credentials)
    | ServerRefuses(t: ThreadId)
    | StoreFails(t: ThreadId)
    | Crash(t: ThreadId)
    | Tick(seconds: nat)
    | Login(creds: Credentials)
    | Logout

  predicate Holding(pc: Pc) {
    pc.Reload? || pc.BindAgain? || pc.RecheckRefresh? || pc.RecheckAccess? || pc.Refreshing? || pc.Storing?
  }

  function SetPc(s: State, t: ThreadId, pc: Pc): State
    requires t in s.threads
  {
    s.(threads := s.threads[t := s.threads[t].(pc := pc)])
  }

  /** Leaving the guarded part: the guard is dropped and the call returns. */
  function Return(s: State, t: ThreadId, result: Option<Token>): State
    requires t in s.threads
  {
    SetPc(s.(holder := if Holding(s.threads[t].pc) then None else s.holder), t, Done(result))
  }

  /** `load_credentials_for_server` up to the migration of legacy credentials. */
  function Loaded(cfg: Config, s: State, t: ThreadId, again: bool): State
    requires t in s.threads
  {
    if s.store.None? || !ServerMatches(cfg, s.store.value, s.threads[t].url) then Return(s, t, None)
    else if s.store.value.serverUrl.None? then
      var bound := s.store.value.(serverUrl := Some(cfg.normalize(s.threads[t].url)));
      SetPc(s, t, if again then BindAgain(bound) else BindFirst(bound))
    else SetPc(s, t, if again then RecheckRefresh(s.store.value) else CheckRefresh(s.store.value))
  }

  /** The next effect of thread `t`, when nothing fails. */
  function Advance(cfg: Config, s: State, t: ThreadId): Option<State>
    requires t in s.threads
  {
    match s.threads[t].pc
    case Load => Some(Loaded(cfg, s, t, false))
    case BindFirst(c) => Some(SetPc(s.(store := Some(c)), t, CheckRefresh(c)))
    case CheckRefresh(c) => Some(if RefreshExpired(c, s.now) then Return(s, t, None) else SetPc(s, t, CheckAccess(c)))
    case CheckAccess(c) =>
      Some(if AccessExpired(c, s.now) then SetPc(s, t, Waiting) else Return(s, t, Some(c.accessToken)))
    case Waiting =>
      if s.poisoned then Some(Return(s, t, None))
      else if s.holder.None? then Some(SetPc(s.(holder := Some(t)), t, Reload))
      else None
    case Reload => Some(Loaded(cfg, s, t, true))
    case BindAgain(c) => Some(SetPc(s.(store := Some(c)), t, RecheckRefresh(c)))
    case RecheckRefresh(c) =>
      Some(if RefreshExpired(c, s.now) then Return(s, t, None) else SetPc(s, t, RecheckAccess(c)))
    case RecheckAccess(c) =>
      Some(if AccessExpired(c, s.now) then SetPc(s, t, Refreshing(c)) else Return(s, t, Some(c.accessToken)))
    case Refreshing(c) => None
    case Storing(c) => Some(Return(s.(store := Some(c)), t, Some(c.accessToken)))
    case Done(_) => None
  }

  /** One action; None when it is not possible in this state. */
  function Step(cfg: Config, s: State, a: Action): Option<State> {
    match a
    case Call(t, url) =>
      if t !in s.threads || s.threads[t].pc.Done? then Some(s.(threads := s.threads[t := Thread(url, Load)])) else None
    case Proceed(t) => if t in s.threads then Advance(cfg, s, t) else None
    case LoadFails(t) =>
      if t in s.threads && (s.threads[t].pc.Load? || s.threads[t].pc.Reload?) then Some(Return(s, t, None)) else None
    case BindFails(t) =>
      if t in s.threads && s.threads[t].pc.BindFirst? then Some(SetPc(s, t, CheckRefresh(s.threads[t].pc.creds)))
      else if t in s.threads && s.threads[t].pc.BindAgain? then Some(SetPc(s, t, RecheckRefresh(s.threads[t].pc.creds)))
      else None
    case ServerAnswers(t, renewed) =>
      if t in s.threads && s.threads[t].pc.Refreshing?
         && renewed.serverUrl == Some(cfg.normalize(s.threads[t].url)) && renewed.refreshToken !in s.issued then
        Some(SetPc(s.(completed := s.completed + [s.threads[t].pc.creds.refreshToken],
                      issued := s.issued + {renewed.refreshToken}), t, Storing(renewed)))
      else None
    case ServerRefuses(t) =>
      if t in s.threads && s.threads[t].pc.Refreshing? then Some(Return(s, t, None)) else None
    case StoreFails(t) =>
      if t in s.threads && s.threads[t].pc.Storing? then Some(Return(s, t, Some(s.threads[t].pc.renewed.accessToken)))
      else None
    case Crash(t) =>
      if t in s.threads && !s.threads[t].pc.Done? then
        Some(Return(s.(poisoned := s.poisoned || Holding(s.threads[t].pc)), t, None))
      else None
    case Tick(n) => Some(s.(now := s.now + n))
    case Login(c) =>
      if c.serverUrl.Some? && c.refreshToken !in s.issued then
        Some(s.(store := Some(c), issued := s.issued + {c.refreshToken}))
      else None
    case Logout => Some(s.(store := None))
  }

  // ----- Runs -----

  /** The state after the actions `acts`; None when one of them was not possible. */
  function Run(cfg: Config, s: State, acts: seq<Action>): Option<State>
    decreases acts
  {
    if acts == [] then Some(s)
    else match Step(cfg, s, acts[0])
      case None => None
      case Some(next) => Run(cfg, next, acts[1..])
  }

  lemma {:induction false} RunSnoc(cfg: Config, s: State, acts: seq<Action>, i: nat)
    requires i < |acts| && Run(cfg, s, acts[..i + 1]).Some?
    ensures Run(cfg, s, acts[..i]).Some?
    ensures Step(cfg, Run(cfg, s, acts[..i]).value, acts[i]) == Run(cfg, s, acts[..i + 1])
    decreases i
  {
    assert acts[..i + 1][0] == acts[0] && acts[..i + 1][1..] == acts[1..][..i];
    if i > 0 {
      assert acts[..i][0] == acts[0] && acts[..i][1..] == acts[1..][..i - 1];
      RunSnoc(cfg, Step(cfg, s, acts[0]).value, acts[1..], i - 1);
    }
  }

  lemma {:induction false} RunPrefix(cfg: Config, s: State, acts: seq<Action>, i: nat, j: nat)
    requires i <= j <= |acts| && Run(cfg, s, acts[..j]).Some?
    ensures Run(cfg, s, acts[..i]).Some?
    decreases j - i
  {
    if i < j {
      RunSnoc(cfg, s, acts, j - 1);
      RunPrefix(cfg, s, acts, i, j - 1);
    }
  }

  /** The run `acts` is possible from `s`. */
  ghost predicate IsRun(cfg: Config, s: State, acts: seq<Action>) {
    Run(cfg, s, acts[..|acts|]).Some?
  }

  /** The state before action `i`. */
  ghost function At(cfg: Config, s: State, acts: seq<Action>, i: nat): State
    requires IsRun(cfg, s, acts) && i <= |acts|
  {
    RunPrefix(cfg, s, acts, i, |acts|);
    Run(cfg, s, acts[..i]).value
  }

  lemma {:induction false} AtStep(cfg: Config, s: State, acts: seq<Action>, i: nat)
    requires IsRun(cfg, s, acts) && i < |acts|
    ensures Step(cfg, At(cfg, s, acts, i), acts[i]) == Some(At(cfg, s, acts, i + 1))
  {
    RunPrefix(cfg, s, acts, i + 1, |acts|);
    RunSnoc(cfg, s, acts, i);
  }

  lemma {:induction false} AtStart(cfg: Config, s: State, acts: seq<Action>)
    requires IsRun(cfg, s, acts)
    ensures At(cfg, s, acts, 0) == s
  {
    assert acts[..0] == [];
  }

  predicate WritesSucceed(acts: seq<Action>) {
    forall i | 0 <= i < |acts| :: !acts[i].StoreFails?
  }

  /** No call is running; a stored login names its server. */
  ghost predicate Init(s: State) {
    && s.threads == map[] && s.holder == None && !s.poisoned && s.completed == []
    && StoreOk(s)
  }

  // ----- The invariant -----

  predicate HasCreds(pc: Pc) {
    pc.BindFirst? || pc.CheckRefresh? || pc.CheckAccess? || pc.BindAgain? || pc.RecheckRefresh? || pc.RecheckAccess?
    || pc.Refreshing?
  }

  /** The lock and the program counter agree, and a refreshing thread's access token is about to expire. */
  ghost predicate Locked(s: State, t: ThreadId)
    requires t in s.threads
  {
    var pc := s.threads[t].pc;
    (s.holder == Some(t) <==> Holding(pc)) && (pc.Refreshing? ==> AccessExpired(pc.creds, s.now))
  }

  ghost predicate ThreadOk(s: State, t: ThreadId)
    requires t in s.threads
  {
    var pc := s.threads[t].pc;
    && Locked(s, t)
    && !pc.BindFirst? && !pc.BindAgain?
    && (Holding(pc) && HasCreds(pc) ==> pc.creds.refreshToken in s.issued)
    && (pc.Storing? ==> pc.renewed.refreshToken !in s.completed && pc.renewed.refreshToken in s.issued)
    && (pc.Storing? ==> pc.renewed.serverUrl.Some?)
  }

  ghost predicate StoreOk(s: State) {
    s.store.Some? ==> s.store.value.serverUrl.Some? && s.store.value.refreshToken in s.issued
  }

  /** Nobody is about to overwrite the store with the outcome of a finished refresh. */
  predicate NotStoring(s: State) {
    s.holder.Some? && s.holder.value in s.threads ==> !s.threads[s.holder.value].pc.Storing?
  }

  /** How often a finished refresh presented a token that an earlier one had presented. */
  function Repeats(xs: seq<Token>): nat {
    if xs == [] then 0 else
    var front := xs[..|xs| - 1];
    Repeats(front) + if xs[|xs| - 1] in front then 1 else 0
  }

  lemma {:induction false} RepeatsPush(xs: seq<Token>, x: Token)
    ensures Repeats(xs + [x]) == Repeats(xs) + if x in xs then 1 else 0
  {
    assert (xs + [x])[..|xs|] == xs;
  }

  function FailedWrites(acts: seq<Action>): nat {
    if acts == [] then 0 else
    FailedWrites(acts[..|acts| - 1]) + if acts[|acts| - 1].StoreFails? then 1 else 0
  }

  /** The refresh token that the lock holder is about to check or present. */
  function HolderToken(s: State): Option<Token> {
    if s.holder.Some? && s.holder.value in s.threads && HasCreds(s.threads[s.holder.value].pc) then
      Some(s.threads[s.holder.value].pc.creds.refreshToken)
    else None
  }

  /** A replaced token is in the store or in the hands of the lock holder, and can still be presented. */
  predicate Stale(s: State) {
    && !s.poisoned && NotStoring(s)
    && ((s.store.Some? && s.store.value.refreshToken in s.completed)
        || (HolderToken(s).Some? && HolderToken(s).value in s.completed))
  }

  /** What holds after `failed` lost writes: each leaves one replaced token that can be presented once more. */
  ghost predicate Inv(s: State, failed: nat) {
    && (forall t | t in s.threads :: ThreadOk(s, t))
    && (s.holder.Some? ==> s.holder.value in s.threads)
    && (s.poisoned ==> s.holder.None?)
    && StoreOk(s)
    && (forall x | x in s.completed :: x in s.issued)
    && Repeats(s.completed) + (if Stale(s) then 1 else 0) <= failed
  }

  lemma {:induction false} ReturnKeepsInv(s: State, failed: nat, t: ThreadId, result: Option<Token>)
    requires Inv(s, failed) && t in s.threads && !s.threads[t].pc.Storing?
    ensures Inv(Return(s, t, result), failed)
  {
  }

  lemma {:induction false} LoadedKeepsInv(cfg: Config, s: State, failed: nat, t: ThreadId, again: bool)
    requires Inv(s, failed) && t in s.threads && s.threads[t].pc == if again then Reload else Load
    ensures Inv(Loaded(cfg, s, t, again), failed)
  {
    if s.store.None? || !ServerMatches(cfg, s.store.value, s.threads[t].url) {
      ReturnKeepsInv(s, failed, t, None);
    }
  }

  lemma {:induction false} AdvanceKeepsInv(cfg: Config, s: State, failed: nat, t: ThreadId)
    requires Inv(s, failed) && t in s.threads && Advance(cfg, s, t).Some?
    ensures Inv(Advance(cfg, s, t).value, failed)
  {
    match s.threads[t].pc {
      case Load => LoadedKeepsInv(cfg, s, failed, t, false);
      case Reload => LoadedKeepsInv(cfg, s, failed, t, true);
      case Waiting => LockKeepsInv(cfg, s, failed, t);
      case Storing(_) => StoreKeepsInv(cfg, s, failed, t);
      case _ => CheckKeepsInv(cfg, s, failed, t);
    }
  }

  lemma {:induction false} LockKeepsInv(cfg: Config, s: State, failed: nat, t: ThreadId)
    requires Inv(s, failed) && t in s.threads && s.threads[t].pc.Waiting? && Advance(cfg, s, t).Some?
    ensures Inv(Advance(cfg, s, t).value, failed)
  {
  }

  lemma {:induction false} StoreKeepsInv(cfg: Config, s: State, failed: nat, t: ThreadId)
    requires Inv(s, failed) && t in s.threads && s.threads[t].pc.Storing? && Advance(cfg, s, t).Some?
    ensures Inv(Advance(cfg, s, t).value, failed)
  {
  }

  /** A thread that looks at its credentials and keeps them. */
  lemma {:induction false} MoveKeepsInv(s: State, failed: nat, t: ThreadId, pc: Pc)
    requires Inv(s, failed) && t in s.threads && HasCreds(s.threads[t].pc)
    requires Holding(pc) == Holding(s.threads[t].pc) && !pc.BindFirst? && !pc.BindAgain?
    requires if HasCreds(pc) then pc.creds == s.threads[t].pc.creds else pc == Waiting
    requires pc.Refreshing? ==> AccessExpired(pc.creds, s.now)
    ensures Inv(SetPc(s, t, pc), failed)
  {
    hide Repeats;
    assert ThreadOk(s, t);
  }

  /** The steps that only look at the clock. */
  lemma {:induction false} CheckKeepsInv(cfg: Config, s: State, failed: nat, t: ThreadId)
    requires Inv(s, failed) && t in s.threads && Advance(cfg, s, t).Some?
    requires s.threads[t].pc.CheckRefresh? || s.threads[t].pc.CheckAccess? || s.threads[t].pc.RecheckRefresh?
             || s.threads[t].pc.RecheckAccess?
    ensures Inv(Advance(cfg, s, t).value, failed)
  {
    hide Inv;
    var c := s.threads[t].pc.creds;
    ReturnKeepsInv(s, failed, t, None);
    ReturnKeepsInv(s, failed, t, Some(c.accessToken));
    match s.threads[t].pc {
      case CheckRefresh(_) => MoveKeepsInv(s, failed, t, CheckAccess(c));
      case CheckAccess(_) => MoveKeepsInv(s, failed, t, Waiting);
      case RecheckRefresh(_) => MoveKeepsInv(s, failed, t, RecheckAccess(c));
      case RecheckAccess(_) =>
        if AccessExpired(c, s.now) {
          MoveKeepsInv(s, failed, t, Refreshing(c));
        }
    }
  }

  /** A refreshing thread holds the lock; if it presents a replaced token, that one was counted as stale. */
  lemma {:induction false} RefresherIsStale(s: State, failed: nat, t: ThreadId)
    requires Inv(s, failed) && t in s.threads && s.threads[t].pc.Refreshing?
    ensures s.holder == Some(t) && s.threads[t].pc.creds.refreshToken in s.issued
    ensures s.threads[t].pc.creds.refreshToken in s.completed ==> Stale(s)
  {
    assert ThreadOk(s, t);
    hide Repeats;
  }

  lemma {:induction false} AnswerKeepsInv(cfg: Config, s: State, failed: nat, t: ThreadId, renewed: Credentials)
    requires Inv(s, failed) && Step(cfg, s, ServerAnswers(t, renewed)).Some?
    ensures Inv(Step(cfg, s, ServerAnswers(t, renewed)).value, failed)
  {
    var next := Step(cfg, s, ServerAnswers(t, renewed)).value;
    RefresherIsStale(s, failed, t);
    RepeatsPush(s.completed, s.threads[t].pc.creds.refreshToken);
    assert !Stale(next);
    hide Repeats, Stale;
    forall u | u in next.threads ensures ThreadOk(next, u) {
      assert ThreadOk(s, u);
    }
  }

  /** A lost write: the token in the store may be one that was replaced. */
  lemma {:induction false} LostWriteKeepsInv(cfg: Config, s: State, failed: nat, t: ThreadId)
    requires Inv(s, failed) && Step(cfg, s, StoreFails(t)).Some?
    ensures Inv(Step(cfg, s, StoreFails(t)).value, failed + 1)
  {
    hide Repeats;
    assert ThreadOk(s, t);
  }

  lemma {:induction false} StepKeepsInv(cfg: Config, s: State, failed: nat, a: Action)
    requires Inv(s, failed) && Step(cfg, s, a).Some?
    ensures Inv(Step(cfg, s, a).value, failed + if a.StoreFails? then 1 else 0)
  {
    match a {
      case StoreFails(t) => LostWriteKeepsInv(cfg, s, failed, t);
      case Proceed(t) => AdvanceKeepsInv(cfg, s, failed, t);
      case ServerAnswers(t, renewed) => AnswerKeepsInv(cfg, s, failed, t, renewed);
      case Crash(t) => CrashKeepsInv(cfg, s, failed, t);
      case LoadFails(t) => ReturnKeepsInv(s, failed, t, None);
      case ServerRefuses(t) => ReturnKeepsInv(s, failed, t, None);
      case _ =>
    }
  }

  lemma {:induction false} CrashKeepsInv(cfg: Config, s: State, failed: nat, t: ThreadId)
    requires Inv(s, failed) && Step(cfg, s, Crash(t)).Some?
    ensures Inv(Step(cfg, s, Crash(t)).value, failed)
  {
  }

  lemma {:induction false} FailedWritesSnoc(acts: seq<Action>, i: nat)
    requires i < |acts|
    ensures FailedWrites(acts[..i + 1]) == FailedWrites(acts[..i]) + if acts[i].StoreFails? then 1 else 0
  {
    assert acts[..i + 1][..i] == acts[..i];
  }

  lemma {:induction false} InvAlways(cfg: Config, s: State, acts: seq<Action>, i: nat)
    requires Init(s) && IsRun(cfg, s, acts) && i <= |acts|
    ensures Inv(At(cfg, s, acts, i), FailedWrites(acts[..i]))
  {
    if i == 0 {
      AtStart(cfg, s, acts);
      assert acts[..0] == [];
    } else {
      InvAlways(cfg, s, acts, i - 1);
      AtStep(cfg, s, acts, i - 1);
      FailedWritesSnoc(acts, i - 1);
      hide Inv, Step, At, IsRun, FailedWrites;
      StepKeepsInv(cfg, At(cfg, s, acts, i - 1), FailedWrites(acts[..i - 1]), acts[i - 1]);
    }
  }

  lemma {:induction false} NoneFailed(acts: seq<Action>, i: nat)
    requires WritesSucceed(acts) && i <= |acts|
    ensures FailedWrites(acts[..i]) == 0
  {
    if i > 0 {
      NoneFailed(acts, i - 1);
      FailedWritesSnoc(acts, i - 1);
    }
  }

  // ----- Safety of every run -----

  /** Thread `t` is at the server, presenting the refresh token `x`. */
  predicate Presents(s: State, t: ThreadId, x: Token) {
    t in s.threads && s.threads[t].pc.Refreshing? && s.threads[t].pc.creds.refreshToken == x
  }

  ghost predicate LockOk(s: State) {
    (forall t | t in s.threads :: Locked(s, t)) && (s.holder.Some? ==> s.holder.value in s.threads)
  }

  lemma {:induction false} ReturnKeepsLock(s: State, t: ThreadId, result: Option<Token>)
    requires LockOk(s) && t in s.threads
    ensures LockOk(Return(s, t, result))
  {
  }

  /** A thread that stays inside or outside the lock, whatever happens to the store. */
  lemma {:induction false} MoveKeepsLock(s: State, t: ThreadId, store: Option<Credentials>, pc: Pc)
    requires LockOk(s) && t in s.threads && Holding(pc) == Holding(s.threads[t].pc)
    requires pc.Refreshing? ==> AccessExpired(pc.creds, s.now)
    ensures LockOk(SetPc(s.(store := store), t, pc))
  {
  }

  lemma {:induction false} LoadedKeepsLock(cfg: Config, s: State, t: ThreadId, again: bool)
    requires LockOk(s) && t in s.threads && s.threads[t].pc == if again then Reload else Load
    ensures LockOk(Loaded(cfg, s, t, again))
  {
    ReturnKeepsLock(s, t, None);
    if s.store.Some? {
      var bound := s.store.value.(serverUrl := Some(cfg.normalize(s.threads[t].url)));
      MoveKeepsLock(s, t, s.store, if again then BindAgain(bound) else BindFirst(bound));
      MoveKeepsLock(s, t, s.store, if again then RecheckRefresh(s.store.value) else CheckRefresh(s.store.value));
    }
    hide LockOk;
  }

  lemma {:induction false} AdvanceKeepsLock(cfg: Config, s: State, t: ThreadId)
    requires LockOk(s) && t in s.threads && Advance(cfg, s, t).Some?
    ensures LockOk(Advance(cfg, s, t).value)
  {
    match s.threads[t].pc {
      case Load => LoadedKeepsLock(cfg, s, t, false);
      case Reload => LoadedKeepsLock(cfg, s, t, true);
      case Waiting => LockTaken(s, t);
        ReturnKeepsLock(s, t, None);
      case Storing(c) => ReturnKeepsLock(s.(store := Some(c)), t, Some(c.accessToken));
      case BindFirst(c) => MoveKeepsLock(s, t, Some(c), CheckRefresh(c));
      case BindAgain(c) => MoveKeepsLock(s, t, Some(c), RecheckRefresh(c));
      case _ => LookKeepsLock(cfg, s, t);
    }
  }

  lemma {:induction false} LockTaken(s: State, t: ThreadId)
    requires LockOk(s) && t in s.threads && s.threads[t].pc.Waiting?
    ensures s.holder.None? ==> LockOk(SetPc(s.(holder := Some(t)), t, Reload))
  {
  }

  /** The steps that only look at the clock. */
  lemma {:induction false} LookKeepsLock(cfg: Config, s: State, t: ThreadId)
    requires LockOk(s) && t in s.threads && Advance(cfg, s, t).Some?
    requires s.threads[t].pc.CheckRefresh? || s.threads[t].pc.CheckAccess? || s.threads[t].pc.RecheckRefresh?
             || s.threads[t].pc.RecheckAccess?
    ensures LockOk(Advance(cfg, s, t).value)
  {
    var c := s.threads[t].pc.creds;
    ReturnKeepsLock(s, t, None);
    ReturnKeepsLock(s, t, Some(c.accessToken));
    hide LockOk;
    match s.threads[t].pc {
      case CheckRefresh(_) => MoveKeepsLock(s, t, s.store, CheckAccess(c));
      case CheckAccess(_) => MoveKeepsLock(s, t, s.store, Waiting);
      case RecheckRefresh(_) => MoveKeepsLock(s, t, s.store, RecheckAccess(c));
      case RecheckAccess(_) =>
        if AccessExpired(c, s.now) {
          MoveKeepsLock(s, t, s.store, Refreshing(c));
        }
    }
  }

  /** Every action keeps the lock in order, failed writes and bindings of legacy credentials included. */
  lemma {:induction false} StepKeepsLock(cfg: Config, s: State, a: Action)
    requires LockOk(s) && Step(cfg, s, a).Some?
    ensures LockOk(Step(cfg, s, a).value)
  {
    match a {
      case Proceed(t) => AdvanceKeepsLock(cfg, s, t);
      case LoadFails(t) => ReturnKeepsLock(s, t, None);
      case ServerRefuses(t) => ReturnKeepsLock(s, t, None);
      case StoreFails(t) => ReturnKeepsLock(s, t, Some(s.threads[t].pc.renewed.accessToken));
      case Crash(t) => ReturnKeepsLock(s.(poisoned := s.poisoned || Holding(s.threads[t].pc)), t, None);
      case BindFails(t) => BindFailsKeepsLock(cfg, s, t);
      case _ =>
    }
  }

  lemma {:induction false} BindFailsKeepsLock(cfg: Config, s: State, t: ThreadId)
    requires LockOk(s) && Step(cfg, s, BindFails(t)).Some?
    ensures LockOk(Step(cfg, s, BindFails(t)).value)
  {
    var c := s.threads[t].pc.creds;
    if s.threads[t].pc.BindFirst? {
      MoveKeepsLock(s, t, s.store, CheckRefresh(c));
    } else {
      MoveKeepsLock(s, t, s.store, RecheckRefresh(c));
    }
  }

  lemma {:induction false} LockAlways(cfg: Config, s: State, acts: seq<Action>, i: nat)
    requires s.threads == map[] && s.holder == None && IsRun(cfg, s, acts) && i <= |acts|
    ensures LockOk(At(cfg, s, acts, i))
  {
    hide Step, At, IsRun;
    if i == 0 {
      AtStart(cfg, s, acts);
    } else {
      LockAlways(cfg, s, acts, i - 1);
      AtStep(cfg, s, acts, i - 1);
      StepKeepsLock(cfg, At(cfg, s, acts, i - 1), acts[i - 1]);
    }
  }

  /**
   * In every run, whatever fails and whatever is stored: one refresher at a time, and only with an access token
   * that is about to expire.
   */
  lemma {:induction false} OneRefresher(cfg: Config, s: State, acts: seq<Action>, i: nat, t: ThreadId, x: Token,
                                        u: ThreadId, y: Token)
    requires s.threads == map[] && s.holder == None && IsRun(cfg, s, acts) && i <= |acts|
    requires Presents(At(cfg, s, acts, i), t, x) && Presents(At(cfg, s, acts, i), u, y)
    ensures t == u
    ensures At(cfg, s, acts, i).holder == Some(t)
    ensures AccessExpired(At(cfg, s, acts, i).threads[t].pc.creds, At(cfg, s, acts, i).now)
  {
    hide At, IsRun;
    LockAlways(cfg, s, acts, i);
  }

  lemma {:induction false} CompletedGrows(cfg: Config, s: State, acts: seq<Action>, i: nat, j: nat)
    requires IsRun(cfg, s, acts) && i <= j <= |acts|
    ensures At(cfg, s, acts, i).completed <= At(cfg, s, acts, j).completed
    decreases j - i
  {
    if i < j {
      AtStep(cfg, s, acts, j - 1);
      CompletedGrows(cfg, s, acts, i, j - 1);
    }
  }

  /**
   * The server answered `t` at step `i`, which replaced the refresh token `x`: nobody presents
   * `x` from then on.
   */
  lemma {:induction false} NoReplacedToken(cfg: Config, s: State, acts: seq<Action>, i: nat, j: nat, t: ThreadId,
                                           u: ThreadId, x: Token)
    requires Init(s) && IsRun(cfg, s, acts) && WritesSucceed(acts) && i < j <= |acts|
    requires acts[i].ServerAnswers? && acts[i].t == t && Presents(At(cfg, s, acts, i), t, x)
    ensures !Presents(At(cfg, s, acts, j), u, x)
  {
    hide At, IsRun, Init;
    InvAlways(cfg, s, acts, j);
    NoneFailed(acts, j);
    hide WritesSucceed, FailedWrites, Repeats;
    AtStep(cfg, s, acts, i);
    var next := At(cfg, s, acts, i + 1);
    assert x == next.completed[|next.completed| - 1];
    CompletedGrows(cfg, s, acts, i + 1, j);
    var r := At(cfg, s, acts, j);
    assert x in r.completed;
    if u in r.threads {
      assert ThreadOk(r, u);
    }
  }

  /** Each lost write costs at most one refresh that presents a replaced token. */
  lemma {:induction false} RepeatsBounded(cfg: Config, s: State, acts: seq<Action>, i: nat)
    requires Init(s) && IsRun(cfg, s, acts) && i <= |acts|
    ensures Repeats(At(cfg, s, acts, i).completed) <= FailedWrites(acts[..i])
  {
    InvAlways(cfg, s, acts, i);
  }

  // ----- Waiting threads use the token another thread obtained -----

  /** `c` is in the store and valid for `seconds` more: nobody is refreshing or about to replace it. */
  ghost predicate Settled(s: State, c: Credentials) {
    && s.store == Some(c) && c.serverUrl.Some?
    && (forall t | t in s.threads
       && Holding(s.threads[t].pc) :: s.threads[t].pc in {Reload, RecheckRefresh(c), RecheckAccess(c)})
    && (forall t | t in s.threads :: !s.threads[t].pc.BindFirst?)
  }

  predicate Usable(c: Credentials, now: int) {
    !AccessExpired(c, now) && !RefreshExpired(c, now)
  }

  lemma {:induction false} StoringSettles(cfg: Config, s: State, failed: nat, t: ThreadId, c: Credentials)
    requires Inv(s, failed) && t in s.threads && s.threads[t].pc == Storing(c)
    ensures Step(cfg, s, Proceed(t)).Some? && Settled(Step(cfg, s, Proceed(t)).value, c)
    ensures Step(cfg, s, Proceed(t)).value.threads[t].pc == Done(Some(c.accessToken))
  {
    assert ThreadOk(s, t);
    forall u | u in s.threads ensures u == t || (!Holding(s.threads[u].pc) && !s.threads[u].pc.BindFirst?) {
      assert ThreadOk(s, u);
    }
  }

  lemma {:induction false} StepKeepsSettled(cfg: Config, s: State, a: Action, c: Credentials)
    requires Settled(s, c) && Usable(c, s.now) && Step(cfg, s, a).Some? && !a.Login? && !a.Logout?
    ensures Settled(Step(cfg, s, a).value, c)
  {
  }

  /** Where a call may be that waited for `c`; only a failed load or a panic loses the token. */
  predicate WaiterAt(s: State, t: ThreadId, url: string, c: Credentials) {
    && t in s.threads && s.threads[t].url == url
    && s.threads[t].pc in {Waiting, Reload, RecheckRefresh(c), RecheckAccess(c), Done(Some(c.accessToken))}
  }

  predicate Undisturbed(a: Action, t: ThreadId) {
    && !a.Login? && !a.Logout? && !a.Crash?
    && a != LoadFails(t) && (a.Call? ==> a.t != t)
  }

  lemma {:induction false} StepKeepsWaiter(cfg: Config, s: State, a: Action, c: Credentials, t: ThreadId, url: string)
    requires Settled(s, c) && Usable(c, s.now) && Step(cfg, s, a).Some? && Undisturbed(a, t)
    requires WaiterAt(s, t, url, c) && ServerMatches(cfg, c, url) && !s.poisoned
    ensures WaiterAt(Step(cfg, s, a).value, t, url, c) && !Step(cfg, s, a).value.poisoned
  {
  }

  /** From step `i` to step `j` nobody logs in or out and `c` stays usable. */
  ghost predicate Calm(cfg: Config, s: State, acts: seq<Action>, i: nat, j: nat, c: Credentials)
    requires IsRun(cfg, s, acts) && i <= j <= |acts|
  {
    && (forall k: nat | i <= k < j :: !acts[k].Login? && !acts[k].Logout?)
    && (forall k: nat | i <= k < j :: Usable(c, At(cfg, s, acts, k).now))
  }

  /** While stored credentials stay usable, no thread refreshes. */
  lemma {:induction false} SettledWhileCalm(cfg: Config, s: State, acts: seq<Action>, i: nat, j: nat, c: Credentials)
    requires IsRun(cfg, s, acts) && i <= j <= |acts|
    requires Settled(At(cfg, s, acts, i), c) && Calm(cfg, s, acts, i, j, c)
    ensures Settled(At(cfg, s, acts, j), c)
    ensures forall t, x :: !Presents(At(cfg, s, acts, j), t, x)
    decreases j - i
  {
    hide At, IsRun;
    if i < j {
      SettledWhileCalm(cfg, s, acts, i, j - 1, c);
      AtStep(cfg, s, acts, j - 1);
      StepKeepsSettled(cfg, At(cfg, s, acts, j - 1), acts[j - 1], c);
    }
  }

  lemma {:induction false} WaiterKeepsWaiting(cfg: Config, s: State, acts: seq<Action>, i: nat, j: nat, c: Credentials,
                                              t: ThreadId, url: string)
    requires IsRun(cfg, s, acts) && i <= j <= |acts|
    requires Settled(At(cfg, s, acts, i), c) && Calm(cfg, s, acts, i, j, c)
    requires WaiterAt(At(cfg, s, acts, i), t, url, c) && ServerMatches(cfg, c, url) && !At(cfg, s, acts, i).poisoned
    requires forall k: nat | i <= k < j :: Undisturbed(acts[k], t)
    ensures WaiterAt(At(cfg, s, acts, j), t, url, c) && !At(cfg, s, acts, j).poisoned
    decreases j - i
  {
    hide At, IsRun, Settled, Usable, WaiterAt, ServerMatches, Undisturbed, Step;
    if i < j {
      WaiterKeepsWaiting(cfg, s, acts, i, j - 1, c, t, url);
      SettledWhileCalm(cfg, s, acts, i, j - 1, c);
      AtStep(cfg, s, acts, j - 1);
      StepKeepsWaiter(cfg, At(cfg, s, acts, j - 1), acts[j - 1], c, t, url);
    }
  }

  /**
   * At step `i` thread `u` stores what the server answered while `t` waits for the lock.  As long as
   * these credentials stay usable, nobody refreshes again, and `t` can only end with their access token.
   */
  lemma {:induction false} WaiterReusesToken(cfg: Config, s: State, acts: seq<Action>, i: nat, j: nat, u: ThreadId,
                                             c: Credentials, t: ThreadId, url: string)
    requires Init(s) && IsRun(cfg, s, acts) && WritesSucceed(acts) && i < j <= |acts|
    requires acts[i] == Proceed(u) && u in At(cfg, s, acts, i).threads
             && At(cfg, s, acts, i).threads[u].pc == Storing(c)
    requires t in At(cfg, s, acts, i).threads && At(cfg, s, acts, i).threads[t] == Thread(url, Waiting)
    requires ServerMatches(cfg, c, url) && Calm(cfg, s, acts, i + 1, j, c)
    requires forall k: nat | i < k < j :: Undisturbed(acts[k], t)
    ensures forall v, x :: !Presents(At(cfg, s, acts, j), v, x)
    ensures WaiterAt(At(cfg, s, acts, j), t, url, c)
    ensures At(cfg, s, acts, j).threads[t].pc.Done? ==> At(cfg, s, acts, j).threads[t].pc.result == Some(c.accessToken)
  {
    hide At, IsRun, Usable, ServerMatches, Undisturbed, Calm, Settled;
    InvAlways(cfg, s, acts, i);
    AtStep(cfg, s, acts, i);
    StoringSettles(cfg, At(cfg, s, acts, i), FailedWrites(acts[..i]), u, c);
    assert ThreadOk(At(cfg, s, acts, i), u);
    WaiterKeepsWaiting(cfg, s, acts, i + 1, j, c, t, url);
    SettledWhileCalm(cfg, s, acts, i + 1, j, c);
  }

  lemma {:induction false} RunCons(cfg: Config, s: State, a: Action, next: State, rest: seq<Action>)
    requires Step(cfg, s, a) == Some(next)
    ensures Run(cfg, s, [a] + rest) == Run(cfg, next, rest)
  {
    assert ([a] + rest)[1..] == rest;
  }

  /** `n` steps of thread `t` alone. */
  function Alone(t: ThreadId, n: nat): seq<Action> {
    if n == 0 then [] else [Proceed(t)] + Alone(t, n - 1)
  }

  lemma {:induction false} AloneStep(cfg: Config, s: State, t: ThreadId, n: nat)
    requires n > 0 && t in s.threads && Advance(cfg, s, t).Some?
    ensures Run(cfg, s, Alone(t, n)) == Run(cfg, Advance(cfg, s, t).value, Alone(t, n - 1))
  {
    RunCons(cfg, s, Proceed(t), Advance(cfg, s, t).value, Alone(t, n - 1));
  }

  /** And it does end with it once it runs: four steps after the lock is free. */
  lemma {:induction false} WaiterFinishes(cfg: Config, s: State, t: ThreadId, c: Credentials)
    requires Settled(s, c) && Usable(c, s.now) && t in s.threads && s.threads[t].pc == Waiting
    requires ServerMatches(cfg, c, s.threads[t].url) && !s.poisoned && s.holder.None?
    ensures Run(cfg, s, Alone(t, 4))
         == Some(s.(threads := s.threads[t := s.threads[t].(pc := Done(Some(c.accessToken)))]))
  {
    hide Run;
    hide Alone;
    AloneStep(cfg, s, t, 4);
    var s1 := Advance(cfg, s, t).value;
    AloneStep(cfg, s1, t, 3);
    var s2 := Advance(cfg, s1, t).value;
    AloneStep(cfg, s2, t, 2);
    var s3 := Advance(cfg, s2, t).value;
    AloneStep(cfg, s3, t, 1);
    RunNothing(cfg, Advance(cfg, s3, t).value, t);
    assert Advance(cfg, s3, t).value.threads == s.threads[t := s.threads[t].(pc := Done(Some(c.accessToken)))];
  }

  lemma {:induction false} RunNothing(cfg: Config, s: State, t: ThreadId)
    ensures Run(cfg, s, Alone(t, 0)) == Some(s)
  {
  }

  // ----- What the assumptions are for -----

  lemma {:induction false} RunConcat(cfg: Config, s: State, a: seq<Action>, mid: State, b: seq<Action>)
    requires Run(cfg, s, a) == Some(mid)
    ensures Run(cfg, s, a + b) == Run(cfg, mid, b)
    decreases a
  {
    if a == [] {
      assert a + b == b;
    } else {
      assert (a + b)[0] == a[0] && (a + b)[1..] == a[1..] + b;
      RunConcat(cfg, Step(cfg, s, a[0]).value, a[1..], mid, b);
    }
  }

  lemma {:induction false} AloneWrites(t: ThreadId, n: nat)
    ensures WritesSucceed(Alone(t, n))
  {
    if n > 0 {
      AloneWrites(t, n - 1);
    }
  }

  /** The store holds credentials of `t`'s server that need a refresh, and the lock is free. */
  predicate NeedsRefresh(cfg: Config, s: State, t: ThreadId, c: Credentials) {
    && t in s.threads && s.store == Some(c) && c.serverUrl.Some? && ServerMatches(cfg, c, s.threads[t].url)
    && AccessExpired(c, s.now) && !RefreshExpired(c, s.now) && !s.poisoned && s.holder.None?
  }

  function AtServer(s: State, t: ThreadId, c: Credentials): State
    requires t in s.threads
  {
    SetPc(s.(holder := Some(t)), t, Refreshing(c))
  }

  lemma {:induction false} LockedPath(cfg: Config, s: State, t: ThreadId, c: Credentials)
    requires NeedsRefresh(cfg, s, t, c) && s.threads[t].pc == Waiting
    ensures Run(cfg, s, Alone(t, 4)) == Some(AtServer(s, t, c))
  {
    hide Run;
    hide Alone;
    AloneStep(cfg, s, t, 4);
    var s1 := Advance(cfg, s, t).value;
    AloneStep(cfg, s1, t, 3);
    var s2 := Advance(cfg, s1, t).value;
    AloneStep(cfg, s2, t, 2);
    var s3 := Advance(cfg, s2, t).value;
    AloneStep(cfg, s3, t, 1);
    RunNothing(cfg, Advance(cfg, s3, t).value, t);
    assert Advance(cfg, s3, t).value.threads == AtServer(s, t, c).threads;
  }

  lemma {:induction false} CheckedPath(cfg: Config, s: State, t: ThreadId, c: Credentials)
    requires NeedsRefresh(cfg, s, t, c) && s.threads[t].pc == CheckRefresh(c)
    ensures Run(cfg, s, Alone(t, 6)) == Some(AtServer(s, t, c))
  {
    hide Run;
    hide Alone;
    AloneStep(cfg, s, t, 6);
    var s1 := Advance(cfg, s, t).value;
    AloneStep(cfg, s1, t, 5);
    var s2 := Advance(cfg, s1, t).value;
    LockedPath(cfg, s2, t, c);
    assert AtServer(s2, t, c).threads == AtServer(s, t, c).threads;
  }

  lemma {:induction false} Then(cfg: Config, s: State, acts: seq<Action>, mid: State, a: Action)
    requires Run(cfg, s, acts) == Some(mid) && Step(cfg, mid, a).Some?
    ensures Run(cfg, s, acts + [a]) == Step(cfg, mid, a)
  {
    RunConcat(cfg, s, acts, mid, [a]);
    RunCons(cfg, mid, a, Step(cfg, mid, a).value, []);
    assert [a] + [] == [a];
  }

  lemma {:induction false} ThenChecked(cfg: Config, s: State, acts: seq<Action>, mid: State, t: ThreadId,
                                       c: Credentials)
    requires Run(cfg, s, acts) == Some(mid)
    requires NeedsRefresh(cfg, mid, t, c) && mid.threads[t].pc == CheckRefresh(c)
    ensures Run(cfg, s, acts + Alone(t, 6)) == Some(AtServer(mid, t, c))
  {
    RunConcat(cfg, s, acts, mid, Alone(t, 6));
    CheckedPath(cfg, mid, t, c);
  }

  /** Thread 0 is at the server with the stored credentials, thread 1 has looked at the same credentials. */
  lemma {:induction false} BothStarted(cfg: Config, s: State, c: Credentials, url: string) returns (acts: seq<Action>)
    requires Init(s) && s.store == Some(c) && c.serverUrl.Some? && ServerMatches(cfg, c, url)
    requires AccessExpired(c, s.now) && !RefreshExpired(c, s.now)
    ensures Run(cfg, s, acts) == Some(s.(holder := Some(0),
                                         threads := map[1 := Thread(url, CheckRefresh(c)),
                                                        0 := Thread(url, Refreshing(c))]))
  {
    hide Run;
    hide Alone;
    RunEmpty(cfg, s);
    acts := [];
    var s1 := Step(cfg, s, Call(1, url)).value;
    Then(cfg, s, acts, s, Call(1, url));
    acts := acts + [Call(1, url)];
    var s2 := Step(cfg, s1, Proceed(1)).value;
    Then(cfg, s, acts, s1, Proceed(1));
    acts := acts + [Proceed(1)];
    var s3 := Step(cfg, s2, Call(0, url)).value;
    Then(cfg, s, acts, s2, Call(0, url));
    acts := acts + [Call(0, url)];
    var s4 := Step(cfg, s3, Proceed(0)).value;
    Then(cfg, s, acts, s3, Proceed(0));
    acts := acts + [Proceed(0)];
    ThenChecked(cfg, s, acts, s4, 0, c);
    acts := acts + Alone(0, 6);
    assert AtServer(s4, 0, c).threads == map[1 := Thread(url, CheckRefresh(c)), 0 := Thread(url, Refreshing(c))];
  }

  lemma {:induction false} RunEmpty(cfg: Config, s: State)
    ensures Run(cfg, s, []) == Some(s)
  {
  }

  /** A lost write: the next caller presents the refresh token that was already replaced. */
  lemma {:induction false} FailedWriteRepeatsToken(cfg: Config, s: State, c: Credentials, url: string,
                                                  renewed: Credentials)
    returns (acts: seq<Action>)
    requires Init(s) && s.store == Some(c) && c.serverUrl.Some? && ServerMatches(cfg, c, url)
    requires AccessExpired(c, s.now) && !RefreshExpired(c, s.now)
    requires renewed.serverUrl == Some(cfg.normalize(url)) && renewed.refreshToken !in s.issued
    ensures Run(cfg, s, acts).Some? && Presents(Run(cfg, s, acts).value, 1, c.refreshToken)
    ensures Run(cfg, s, acts).value.completed == [c.refreshToken]
  {
    hide Run;
    hide Alone;
    acts := BothStarted(cfg, s, c, url);
    var s1 := Run(cfg, s, acts).value;
    var s2 := Step(cfg, s1, ServerAnswers(0, renewed)).value;
    Then(cfg, s, acts, s1, ServerAnswers(0, renewed));
    acts := acts + [ServerAnswers(0, renewed)];
    var s3 := Step(cfg, s2, StoreFails(0)).value;
    Then(cfg, s, acts, s2, StoreFails(0));
    acts := acts + [StoreFails(0)];
    ThenChecked(cfg, s, acts, s3, 1, c);
    acts := acts + Alone(1, 6);
  }

  /** Thread 1 is about to bind the legacy credentials that thread 0 has bound and presents. */
  lemma {:induction false} LegacyStarted(cfg: Config, s: State, legacy: Credentials, c: Credentials, url: string)
    returns (acts: seq<Action>)
    requires s.threads == map[] && s.holder.None? && !s.poisoned && s.store == Some(legacy) && legacy.serverUrl.None?
    requires ServerMatches(cfg, legacy, url) && cfg.normalize(cfg.normalize(url)) == cfg.normalize(url)
    requires c == legacy.(serverUrl := Some(cfg.normalize(url)))
    requires AccessExpired(c, s.now) && !RefreshExpired(c, s.now)
    ensures WritesSucceed(acts)
    ensures Run(cfg, s, acts) == Some(s.(holder := Some(0), store := Some(c),
                                         threads := map[1 := Thread(url, BindFirst(c)),
                                                        0 := Thread(url, Refreshing(c))]))
  {
    hide Run;
    hide Alone;
    RunEmpty(cfg, s);
    acts := [];
    var s1 := Step(cfg, s, Call(1, url)).value;
    Then(cfg, s, acts, s, Call(1, url));
    acts := acts + [Call(1, url)];
    var s2 := Step(cfg, s1, Proceed(1)).value;
    Then(cfg, s, acts, s1, Proceed(1));
    acts := acts + [Proceed(1)];
    var s3 := Step(cfg, s2, Call(0, url)).value;
    Then(cfg, s, acts, s2, Call(0, url));
    acts := acts + [Call(0, url)];
    var s4 := Step(cfg, s3, Proceed(0)).value;
    Then(cfg, s, acts, s3, Proceed(0));
    acts := acts + [Proceed(0)];
    var s5 := Step(cfg, s4, Proceed(0)).value;
    Then(cfg, s, acts, s4, Proceed(0));
    acts := acts + [Proceed(0)];
    ThenChecked(cfg, s, acts, s5, 0, c);
    AloneWrites(0, 6);
    acts := acts + Alone(0, 6);
    assert AtServer(s5, 0, c).threads == map[1 := Thread(url, BindFirst(c)), 0 := Thread(url, Refreshing(c))];
  }

  /**
   * Credentials without a server: the binding write happens outside the lock, so it can undo a
   * finished refresh, and the replaced token is presented although no write failed.
   */
  lemma {:induction false} LegacyBindingRepeatsToken(cfg: Config, s: State, legacy: Credentials, url: string,
                                                  renewed: Credentials)
    returns (acts: seq<Action>)
    requires s.threads == map[] && s.holder.None? && !s.poisoned && s.store == Some(legacy) && legacy.serverUrl.None?
    requires ServerMatches(cfg, legacy, url) && cfg.normalize(cfg.normalize(url)) == cfg.normalize(url)
    requires AccessExpired(legacy, s.now) && !RefreshExpired(legacy, s.now) && s.completed == []
    requires renewed.serverUrl == Some(cfg.normalize(url)) && renewed.refreshToken !in s.issued
    ensures WritesSucceed(acts)
    ensures Run(cfg, s, acts).Some? && Presents(Run(cfg, s, acts).value, 1, legacy.refreshToken)
    ensures Run(cfg, s, acts).value.completed == [legacy.refreshToken]
  {
    hide Run;
    hide Alone;
    var c := legacy.(serverUrl := Some(cfg.normalize(url)));
    acts := LegacyStarted(cfg, s, legacy, c, url);
    var s1 := Run(cfg, s, acts).value;
    var s2 := Step(cfg, s1, ServerAnswers(0, renewed)).value;
    Then(cfg, s, acts, s1, ServerAnswers(0, renewed));
    acts := acts + [ServerAnswers(0, renewed)];
    var s3 := Step(cfg, s2, Proceed(0)).value;
    Then(cfg, s, acts, s2, Proceed(0));
    acts := acts + [Proceed(0)];
    var s4 := Step(cfg, s3, Proceed(1)).value;
    Then(cfg, s, acts, s3, Proceed(1));
    acts := acts + [Proceed(1)];
    ThenChecked(cfg, s, acts, s4, 1, c);
    AloneWrites(1, 6);
    acts := acts + Alone(1, 6);
  }
}
