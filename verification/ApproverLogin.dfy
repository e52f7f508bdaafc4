/**
 * The approver's two-factor login: a password verification, a code delivered for it, and at most one login from both.
 */
module ApproverLogin {
  import opened Wrappers

  const CODE_LIFETIME_MS := 120000
  const MAX_CODE_ATTEMPTS := 3

  datatype Account = Account(sub: string, password: string)

  /** A verified password awaiting its code, on one interaction. */
  datatype Factor = Factor(sub: string, passwordAt: int, code: string, expires: int, attempts: nat)

  datatype Login = Login(sub: string, factors: seq<string>, acr: string, authTime: int)

  datatype Delivery = Delivery(sub: string, code: string)

  /** What a login was finished on: the standing password alone, or the code entered and when. */
  datatype Evidence = PasswordAlone | WithCode(entered: string, at: int)

  /** What each request did, for the statements below: `at` is the clock, in milliseconds. */
  datatype Step =
    | Verified(uid: string, sub: string, code: string, at: int)
    | WrongPassword(uid: string)
    | NoFactor(uid: string)
    | Expired(uid: string)
    | WrongCode(uid: string)
    | LoggedIn(uid: string, login: Login, evidence: Evidence)

  datatype Response = PasswordRefused | CodeAsked | PasswordNeeded | CodeExpired | CodeRefused | Denied
    | Finished(login: Login)

  datatype State = State(pending: map<string, Factor>, logins: seq<Login>, delivered: seq<Delivery>, history: seq<Step>)

  function Seconds(ms: int): int {
    ms / 1000
  }

  function PasswordLogin(f: Factor): Login {
    Login(f.sub, ["pwd"], "pwd", f.passwordAt)
  }

  function CodeLogin(f: Factor, now: int): Login {
    Login(f.sub, ["pwd", "otp"], "mfa", Seconds(now))
  }

  /** POST `password`: `code` is the one drawn if the password is correct. */
  function OnPassword(s: State, uid: string, account: Option<Account>, password: string, code: string,
                      now: int): State {
    if account.None? || account.value.password != password then
      s.(pending := s.pending - {uid}, history := s.history + [WrongPassword(uid)])
    else
      var sub := account.value.sub;
      State(s.pending[uid := Factor(sub, Seconds(now), code, now + CODE_LIFETIME_MS, 0)], s.logins,
            s.delivered + [Delivery(sub, code)], s.history + [Verified(uid, sub, code, now)])
  }

  function Finish(s: State, uid: string, login: Login, evidence: Evidence): State {
    State(s.pending - {uid}, s.logins + [login], s.delivered, s.history + [LoggedIn(uid, login, evidence)])
  }

  /** POST `skip`: log in on the password alone. */
  function OnSkip(s: State, uid: string): State {
    if uid !in s.pending then s.(history := s.history + [NoFactor(uid)])
    else Finish(s, uid, PasswordLogin(s.pending[uid]), PasswordAlone)
  }

  /** POST `code`, or a POST naming no step. */
  function OnCode(s: State, uid: string, entered: string, now: int): State {
    if uid !in s.pending then s.(history := s.history + [NoFactor(uid)])
    else
      var f := s.pending[uid];
      if now >= f.expires then s.(pending := s.pending - {uid}, history := s.history + [Expired(uid)])
      else if entered != f.code then
        var attempts := f.attempts + 1;
        var more := s.pending[uid := f.(attempts := attempts)];
        var pending := if attempts >= MAX_CODE_ATTEMPTS then s.pending - {uid} else more;
        s.(pending := pending, history := s.history + [WrongCode(uid)])
      else Finish(s, uid, CodeLogin(f, now), WithCode(entered, now))
  }

  datatype Request =
    | Password(uid: string, account: Option<Account>, password: string, code: string, now: int)
    | Skip(uid: string)
    | Code(uid: string, entered: string, now: int)

  function Handle(s: State, r: Request): State {
    match r
    case Password(uid, account, password, code, now) => OnPassword(s, uid, account, password, code, now)
    case Skip(uid) => OnSkip(s, uid)
    case Code(uid, entered, now) => OnCode(s, uid, entered, now)
  }

  const EMPTY := State(map[], [], [], [])

  /** The state after `requests`, in order. */
  function After(requests: seq<Request>): State {
    if requests == [] then EMPTY else Handle(After(requests[..|requests| - 1]), requests[|requests| - 1])
  }

  /** The provider's object: each request handled in one uninterrupted step. */
  class ApproverIdp {
    var pending: map<string, Factor>
    var logins: seq<Login>
    var delivered: seq<Delivery>
    ghost var history: seq<Step>

    ghost function Contents(): State
      reads this
    {
      State(pending, logins, delivered, history)
    }

    constructor ()
      ensures Contents() == EMPTY
    {
      pending, logins, delivered, history := map[], [], [], [];
    }

    method HandlePassword(uid: string, account: Option<Account>, password: string, code: string, now: int)
      returns (r: Response)
      modifies this
      ensures Contents() == OnPassword(old(Contents()), uid, account, password, code, now)
      ensures account.Some? && account.value.password == password ==>
                && r == CodeAsked && delivered == old(delivered) + [Delivery(account.value.sub, code)]
                && pending == old(pending)[uid := Factor(account.value.sub, Seconds(now), code, now + 120000, 0)]
      ensures account.None? || account.value.password != password ==>
                r == PasswordRefused && pending == old(pending) - {uid} && delivered == old(delivered)
      ensures logins == old(logins)
    {
      if account.None? || account.value.password != password {
        pending := pending - {uid};
        history := history + [WrongPassword(uid)];
        return PasswordRefused;
      }
      pending := pending[uid := Factor(account.value.sub, Seconds(now), code, now + CODE_LIFETIME_MS, 0)];
      delivered := delivered + [Delivery(account.value.sub, code)];
      history := history + [Verified(uid, account.value.sub, code, now)];
      return CodeAsked;
    }

    method FinishLogin(uid: string, login: Login, ghost evidence: Evidence)
      modifies this
      ensures Contents() == Finish(old(Contents()), uid, login, evidence)
    {
      pending := pending - {uid};
      logins := logins + [login];
      history := history + [LoggedIn(uid, login, evidence)];
    }

    method HandleSkip(uid: string) returns (r: Response)
      modifies this
      ensures Contents() == OnSkip(old(Contents()), uid)
      ensures old(uid in pending) ==>
                var f := old(pending)[uid];
                var login := Login(f.sub, ["pwd"], "pwd", f.passwordAt);
                r == Finished(login) && logins == old(logins) + [login] && pending == old(pending) - {uid}
      ensures old(uid !in pending) ==> r == PasswordNeeded && logins == old(logins) && pending == old(pending)
      ensures delivered == old(delivered)
    {
      if uid !in pending {
        history := history + [NoFactor(uid)];
        return PasswordNeeded;
      }
      var login := PasswordLogin(pending[uid]);
      FinishLogin(uid, login, PasswordAlone);
      return Finished(login);
    }

    method HandleCode(uid: string, entered: string, now: int) returns (r: Response)
      modifies this
      ensures Contents() == OnCode(old(Contents()), uid, entered, now)
      ensures r.PasswordNeeded? <==> old(uid !in pending)
      ensures r.CodeExpired? <==> old(uid in pending && now >= pending[uid].expires)
      ensures r.Denied? <==> old(uid in pending && now < pending[uid].expires && entered != pending[uid].code &&
                                 pending[uid].attempts >= 2)
      ensures r.CodeRefused? <==> old(uid in pending && now < pending[uid].expires && entered != pending[uid].code &&
                                      pending[uid].attempts < 2)
      ensures r.Finished? <==> old(uid in pending && now < pending[uid].expires && entered == pending[uid].code)
      ensures r.Finished? ==> r.login == Login(old(pending)[uid].sub, ["pwd", "otp"], "mfa", Seconds(now))
      ensures logins == old(logins) + if r.Finished? then [r.login] else []
      ensures pending == if r.PasswordNeeded? then old(pending)
                         else if r.CodeRefused? then
                           old(pending)[uid := old(pending)[uid].(attempts := old(pending)[uid].attempts + 1)]
                         else old(pending) - {uid}
      ensures delivered == old(delivered)
    {
      if uid !in pending {
        history := history + [NoFactor(uid)];
        return PasswordNeeded;
      }
      var f := pending[uid];
      if now >= f.expires {
        pending := pending - {uid};
        history := history + [Expired(uid)];
        return CodeExpired;
      }
      if entered != f.code {
        var attempts := f.attempts + 1;
        history := history + [WrongCode(uid)];
        if attempts >= MAX_CODE_ATTEMPTS {
          pending := pending - {uid};
          return Denied;
        }
        pending := pending[uid := f.(attempts := attempts)];
        return CodeRefused;
      }
      var login := CodeLogin(f, now);
      FinishLogin(uid, login, WithCode(entered, now));
      return Finished(login);
    }
  }

  // ---- What a history says is still open ----

  /** The wrong codes entered on `uid` from `from` on. */
  function WrongCodes(h: seq<Step>, from: nat, uid: string): nat {
    if |h| <= from then 0
    else WrongCodes(h[..|h| - 1], from, uid) + if h[|h| - 1] == WrongCode(uid) then 1 else 0
  }

  /**
   * The password verified at `j` still stands: since then its interaction has
   * seen nothing but wrong codes, and fewer than three of them.
   */
  ghost predicate Stands(h: seq<Step>, j: nat, uid: string) {
    && j < |h| && h[j].Verified? && h[j].uid == uid
    && (forall k :: j < k < |h| && h[k].uid == uid ==> h[k].WrongCode?)
    && WrongCodes(h, j + 1, uid) < MAX_CODE_ATTEMPTS
  }

  function FactorOf(h: seq<Step>, j: nat): Factor
    requires j < |h| && h[j].Verified?
  {
    Factor(h[j].sub, Seconds(h[j].at), h[j].code, h[j].at + CODE_LIFETIME_MS, WrongCodes(h, j + 1, h[j].uid))
  }

  ghost predicate SomethingStands(h: seq<Step>, uid: string) {
    exists j: nat :: Stands(h, j, uid)
  }

  lemma StandsNext(h: seq<Step>, s: Step, j: nat, uid: string)
    requires j < |h|
    ensures Stands(h + [s], j, uid) <==>
            Stands(h, j, uid) && (s.uid == uid ==> s.WrongCode? && WrongCodes(h, j + 1, uid) + 1 < MAX_CODE_ATTEMPTS)
    ensures WrongCodes(h + [s], j + 1, uid) == WrongCodes(h, j + 1, uid) + if s == WrongCode(uid) then 1 else 0
  {
    assert (h + [s])[..|h|] == h;
    assert forall k :: 0 <= k < |h| ==> (h + [s])[k] == h[k];
    if Stands(h + [s], j, uid) {
      assert (h + [s])[|h|] == s;
    }
  }

  lemma NewestStands(h: seq<Step>, s: Step, uid: string)
    ensures Stands(h + [s], |h|, uid) <==> s.Verified? && s.uid == uid
    ensures s.Verified? ==> WrongCodes(h + [s], |h| + 1, uid) == 0
    ensures !SomethingStands([], uid)
  {
    assert (h + [s])[|h|] == s;
  }

  /**
   * The pending map holds, per interaction, exactly the password that stands, with its code, expiry and wrong entries.
   */
  ghost predicate PendingOk(s: State) {
    && (forall uid :: uid in s.pending ==> SomethingStands(s.history, uid))
    && (forall uid, j: nat :: Stands(s.history, j, uid) ==>
        uid in s.pending && s.pending[uid] == FactorOf(s.history, j))
  }

  /** What one more step does to the pending map. */
  ghost predicate PendingAfter(s: State, s': State, step: Step) {
    && s'.history == s.history + [step]
    && (forall uid :: uid != step.uid ==>
          (uid in s'.pending <==> uid in s.pending) && (uid in s.pending ==> s'.pending[uid] == s.pending[uid]))
    && match step
       case Verified(uid, sub, code, at) =>
         uid in s'.pending && s'.pending[uid] == Factor(sub, Seconds(at), code, at + CODE_LIFETIME_MS, 0)
       case WrongCode(uid) =>
         uid in s.pending &&
         var f := s.pending[uid].(attempts := s.pending[uid].attempts + 1);
         if f.attempts >= MAX_CODE_ATTEMPTS then uid !in s'.pending else uid in s'.pending && s'.pending[uid] == f
       case _ => step.uid !in s'.pending
  }

  lemma PendingNextStands(s: State, s': State, step: Step, uid: string)
    requires PendingOk(s) && PendingAfter(s, s', step) && uid in s'.pending
    ensures SomethingStands(s'.history, uid)
  {
    var h, n := s.history, |s.history|;
    NewestStands(h, step, uid);
    if step.Verified? && step.uid == uid {
      assert Stands(s'.history, n, uid);
    } else {
      assert SomethingStands(h, uid);
      var j: nat :| Stands(h, j, uid);
      StandsNext(h, step, j, uid);
      assert Stands(s'.history, j, uid);
    }
  }

  lemma StandingNextIsPending(s: State, s': State, step: Step, uid: string, j: nat)
    requires PendingOk(s) && PendingAfter(s, s', step) && Stands(s'.history, j, uid)
    ensures uid in s'.pending && s'.pending[uid] == FactorOf(s'.history, j)
  {
    NewestStands(s.history, step, uid);
    if j < |s.history| {
      StandsNext(s.history, step, j, uid);
    }
  }

  lemma PendingNext(s: State, s': State, step: Step)
    requires PendingOk(s) && PendingAfter(s, s', step)
    ensures PendingOk(s')
  {
    forall uid | uid in s'.pending
      ensures SomethingStands(s'.history, uid)
    {
      PendingNextStands(s, s', step, uid);
    }
    forall uid, j: nat | Stands(s'.history, j, uid)
      ensures uid in s'.pending && s'.pending[uid] == FactorOf(s'.history, j)
    {
      StandingNextIsPending(s, s', step, uid, j);
    }
  }

  lemma HandleKeepsPending(s: State, r: Request)
    requires PendingOk(s)
    ensures PendingOk(Handle(s, r))
  {
    var s' := Handle(s, r);
    PendingNext(s, s', s'.history[|s.history|]);
  }

  function LoginsIn(h: seq<Step>): seq<Login> {
    if h == [] then []
    else LoginsIn(h[..|h| - 1]) + if h[|h| - 1].LoggedIn? then [h[|h| - 1].login] else []
  }

  /** The codes delivered: one for each password verified, in order. */
  function DeliveriesIn(h: seq<Step>): seq<Delivery> {
    if h == [] then []
    else
      var last := h[|h| - 1];
      DeliveriesIn(h[..|h| - 1]) + if last.Verified? then [Delivery(last.sub, last.code)] else []
  }

  /**
   * The login at `k` rests on the password verified at `j`: it stood when the
   * login was finished, the login is its account's, and a second factor is
   * claimed only for the code delivered with it, entered before its expiry.
   */
  ghost predicate RestsOn(h: seq<Step>, k: nat, j: nat)
    requires k < |h| && h[k].LoggedIn?
  {
    && Stands(h[..k], j, h[k].uid)
    && match h[k].evidence
       case PasswordAlone => h[k].login == Login(h[j].sub, ["pwd"], "pwd", Seconds(h[j].at))
       case WithCode(entered, at) =>
         && entered == h[j].code && at < h[j].at + CODE_LIFETIME_MS
         && h[k].login == Login(h[j].sub, ["pwd", "otp"], "mfa", Seconds(at))
  }

  ghost predicate Backed(h: seq<Step>, k: nat)
    requires k < |h| && h[k].LoggedIn?
  {
    exists j: nat :: RestsOn(h, k, j)
  }

  ghost predicate AllBacked(h: seq<Step>) {
    forall k :: 0 <= k < |h| && h[k].LoggedIn? ==> Backed(h, k)
  }

  ghost predicate Inv(s: State) {
    PendingOk(s) && s.logins == LoginsIn(s.history) && s.delivered == DeliveriesIn(s.history) && AllBacked(s.history)
  }

  lemma BackedStays(h: seq<Step>, step: Step, k: nat)
    requires k < |h| && h[k].LoggedIn? && Backed(h, k)
    ensures (h + [step])[k] == h[k] && Backed(h + [step], k)
  {
    var j: nat :| RestsOn(h, k, j);
    assert (h + [step])[..k] == h[..k];
    assert h[..k][j] == h[j];
    assert RestsOn(h + [step], k, j);
  }

  lemma LoginIsBacked(s: State, r: Request)
    requires PendingOk(s) && Handle(s, r).history[|s.history|].LoggedIn?
    ensures Backed(Handle(s, r).history, |s.history|)
  {
    var h' := Handle(s, r).history;
    assert r.uid in s.pending && SomethingStands(s.history, r.uid);
    var j: nat :| Stands(s.history, j, r.uid);
    assert h'[..|s.history|] == s.history;
    assert s.pending[r.uid] == FactorOf(s.history, j);
    assert h'[j] == s.history[j];
    assert RestsOn(h', |s.history|, j);
  }

  /** One more step: its login, if it finished one, and its delivery, if it verified a password. */
  ghost predicate Appends(s: State, s': State, step: Step) {
    && s'.history == s.history + [step]
    && s'.logins == s.logins + (if step.LoggedIn? then [step.login] else [])
    && s'.delivered == s.delivered + (if step.Verified? then [Delivery(step.sub, step.code)] else [])
  }

  lemma HandleAppends(s: State, r: Request) returns (step: Step)
    ensures Appends(s, Handle(s, r), step)
  {
    step := Handle(s, r).history[|s.history|];
  }

  lemma LoginsNext(h: seq<Step>, step: Step)
    ensures LoginsIn(h + [step]) == LoginsIn(h) + (if step.LoggedIn? then [step.login] else [])
  {
    assert (h + [step])[..|h|] == h;
  }

  lemma DeliveriesNext(h: seq<Step>, step: Step)
    ensures DeliveriesIn(h + [step]) ==
            DeliveriesIn(h) + (if step.Verified? then [Delivery(step.sub, step.code)] else [])
  {
    assert (h + [step])[..|h|] == h;
  }

  lemma AllBackedNext(h: seq<Step>, step: Step)
    requires AllBacked(h) && (step.LoggedIn? ==> Backed(h + [step], |h|))
    ensures AllBacked(h + [step])
  {
    forall k | 0 <= k < |h + [step]| && (h + [step])[k].LoggedIn?
      ensures Backed(h + [step], k)
    {
      if k < |h| {
        BackedStays(h, step, k);
      }
    }
  }

  lemma AppendsKeepsInv(s: State, s': State, step: Step)
    requires Inv(s) && Appends(s, s', step) && PendingOk(s')
    requires step.LoggedIn? ==> Backed(s'.history, |s.history|)
    ensures Inv(s')
  {
    LoginsNext(s.history, step);
    DeliveriesNext(s.history, step);
    AllBackedNext(s.history, step);
  }

  lemma HandleKeepsInv(s: State, r: Request)
    requires Inv(s)
    ensures Inv(Handle(s, r))
  {
    var step := HandleAppends(s, r);
    HandleKeepsPending(s, r);
    assert Handle(s, r).history[|s.history|] == step;
    if step.LoggedIn? {
      LoginIsBacked(s, r);
    }
    AppendsKeepsInv(s, Handle(s, r), step);
  }

  lemma {:induction false} AfterKeepsInv(requests: seq<Request>)
    ensures Inv(After(requests))
  {
    if requests == [] {
      forall uid
        ensures !SomethingStands([], uid)
      {
        NewestStands([], NoFactor(uid), uid);
      }
    } else {
      AfterKeepsInv(requests[..|requests| - 1]);
      HandleKeepsInv(After(requests[..|requests| - 1]), requests[|requests| - 1]);
    }
  }

  // ---- What each request comes to ----

  /** A password step with an account's own password. */
  ghost predicate PresentsPassword(r: Request) {
    r.Password? && r.account.Some? && r.account.value.password == r.password
  }

  /** What a request comes to after the history `h`. */
  ghost predicate ComesTo(h: seq<Step>, r: Request, step: Step) {
    match step
    case Verified(uid, sub, code, at) =>
      PresentsPassword(r) && uid == r.uid && sub == r.account.value.sub && code == r.code && at == r.now
    case WrongPassword(uid) => r.Password? && !PresentsPassword(r) && uid == r.uid
    case NoFactor(uid) => !r.Password? && uid == r.uid && !SomethingStands(h, uid)
    case Expired(uid) =>
      r.Code? && uid == r.uid && exists j: nat :: Stands(h, j, uid) && r.now >= h[j].at + CODE_LIFETIME_MS
    case WrongCode(uid) =>
      r.Code? && uid == r.uid &&
      exists j: nat :: Stands(h, j, uid) && r.now < h[j].at + CODE_LIFETIME_MS && r.entered != h[j].code
    case LoggedIn(uid, login, PasswordAlone) =>
      r.Skip? && uid == r.uid &&
      exists j: nat :: Stands(h, j, uid) && login == Login(h[j].sub, ["pwd"], "pwd", Seconds(h[j].at))
    case LoggedIn(uid, login, WithCode(entered, at)) =>
      r.Code? && uid == r.uid && entered == r.entered && at == r.now &&
      exists j: nat :: Stands(h, j, uid) && r.now < h[j].at + CODE_LIFETIME_MS && r.entered == h[j].code &&
                       login == Login(h[j].sub, ["pwd", "otp"], "mfa", Seconds(r.now))
  }

  lemma RequestComesTo(s: State, r: Request)
    requires PendingOk(s)
    ensures ComesTo(s.history, r, Handle(s, r).history[|s.history|])
  {
    if SomethingStands(s.history, r.uid) {
      var j: nat :| Stands(s.history, j, r.uid);
      assert s.pending[r.uid] == FactorOf(s.history, j);
    }
  }

  lemma HandleAddsOne(s: State, r: Request)
    ensures |Handle(s, r).history| == |s.history| + 1 && Handle(s, r).history[..|s.history|] == s.history
  {
  }

  lemma {:induction false} HistoryGrows(requests: seq<Request>, k: nat)
    requires k <= |requests|
    ensures |After(requests).history| == |requests| && |After(requests[..k]).history| == k
    ensures After(requests).history[..k] == After(requests[..k]).history
  {
    if k == |requests| {
      assert requests[..k] == requests;
      OneStepEach(requests);
    } else {
      var front := requests[..|requests| - 1];
      HistoryGrows(front, k);
      assert front[..k] == requests[..k];
      HandleAddsOne(After(front), requests[|requests| - 1]);
      assert After(requests).history[..k] == After(front).history[..k];
    }
  }

  lemma {:induction false} OneStepEach(requests: seq<Request>)
    ensures |After(requests).history| == |requests|
  {
    if requests != [] {
      OneStepEach(requests[..|requests| - 1]);
      HandleAddsOne(After(requests[..|requests| - 1]), requests[|requests| - 1]);
    }
  }

  lemma LastComesTo(requests: seq<Request>, r: Request)
    ensures |After(requests + [r]).history| == |requests| + 1
    ensures After(requests + [r]).history[..|requests|] == After(requests).history
    ensures ComesTo(After(requests).history, r, After(requests + [r]).history[|requests|])
  {
    assert (requests + [r])[..|requests|] == requests;
    OneStepEach(requests);
    AfterKeepsInv(requests);
    HandleAddsOne(After(requests), r);
    RequestComesTo(After(requests), r);
  }

  /** Over every run, one step a request, and each comes to what the requests before it and itself determine. */
  lemma StepsExactly(requests: seq<Request>, k: nat)
    requires k < |requests|
    ensures var h := After(requests).history;
            |h| == |requests| && ComesTo(h[..k], requests[k], h[k])
  {
    HistoryGrows(requests, k + 1);
    var h, upTo := After(requests).history, After(requests[..k + 1]).history;
    assert requests[..k + 1] == requests[..k] + [requests[k]];
    OneStepEach(requests[..k]);
    LastComesTo(requests[..k], requests[k]);
    assert h[..k] == upTo[..k] && h[k] == upTo[k];
  }

  /** The password verified at `j` was presented there, for its account, and its code drawn then. */
  ghost predicate VerifiedBy(step: Step, r: Request) {
    && step.Verified? && r.Password? && r.account.Some? && r.account.value.password == r.password
    && step.uid == r.uid && step.sub == r.account.value.sub && step.code == r.code && step.at == r.now
  }

  /**
   * Over every run, the logins are exactly those finished and the deliveries
   * exactly those of the passwords verified, in order; and each login rests on
   * an earlier request that presented an account's own password on its
   * interaction, whose code was delivered to that account's device. Between
   * the two the interaction saw nothing but wrong codes, fewer than three.
   */
  lemma EveryLoginIsBacked(requests: seq<Request>, k: nat)
    requires k < |After(requests).history| && After(requests).history[k].LoggedIn?
    ensures var s := After(requests);
            && |s.history| == |requests|
            && s.logins == LoginsIn(s.history) && s.delivered == DeliveriesIn(s.history)
            && exists j: nat :: RestsOn(s.history, k, j) && VerifiedBy(s.history[j], requests[j]) &&
                                Delivery(s.history[j].sub, s.history[j].code) in s.delivered
  {
    AfterKeepsInv(requests);
    HistoryGrows(requests, 0);
    var h := After(requests).history;
    assert Backed(h, k);
    var j: nat :| RestsOn(h, k, j);
    assert h[..k][j] == h[j];
    StepsExactly(requests, j);
    VerifiedIsDelivered(h, j);
  }

  lemma {:induction false} VerifiedIsDelivered(h: seq<Step>, j: nat)
    requires j < |h| && h[j].Verified?
    ensures Delivery(h[j].sub, h[j].code) in DeliveriesIn(h)
  {
    if j < |h| - 1 {
      VerifiedIsDelivered(h[..|h| - 1], j);
    }
  }

  /** No password verification backs two logins. */
  lemma OneLoginPerPassword(h: seq<Step>, k: nat, k': nat, j: nat)
    requires k < |h| && k' < |h| && h[k].LoggedIn? && h[k'].LoggedIn?
    requires RestsOn(h, k, j) && RestsOn(h, k', j)
    ensures k == k'
  {
    assert forall i :: 0 <= i < k ==> h[..k][i] == h[i];
    assert forall i :: 0 <= i < k' ==> h[..k'][i] == h[i];
  }

  /** The claimed strength matches the factors: `mfa` exactly with both, `pwd` exactly with the password alone. */
  lemma {:induction false} StrengthMatchesFactors(requests: seq<Request>)
    ensures forall i :: 0 <= i < |After(requests).logins| ==>
              var login := After(requests).logins[i];
              (login.acr == "mfa" && login.factors == ["pwd", "otp"]) ||
                  (login.acr == "pwd" && login.factors == ["pwd"])
  {
    if requests != [] {
      StrengthMatchesFactors(requests[..|requests| - 1]);
    }
  }

  /**
   * A code finishes a login exactly when a password stands on its interaction whose code it is, before that code's
   * expiry.
   */
  lemma CodeFinishesExactlyWhen(requests: seq<Request>, uid: string, entered: string, now: int)
    ensures var s := After(requests);
            |OnCode(s, uid, entered, now).logins| > |s.logins| <==>
            exists j: nat :: Stands(s.history, j, uid) && s.history[j].code == entered &&
                now < s.history[j].at + CODE_LIFETIME_MS
  {
    AfterKeepsInv(requests);
    var s := After(requests);
    if uid in s.pending {
      assert SomethingStands(s.history, uid);
      var j: nat :| Stands(s.history, j, uid);
      assert s.pending[uid] == FactorOf(s.history, j);
    }
  }
}
