/** Who may act: sessions and passwords told from the answers of a run alone. */
module Sessions {
  import opened Common
  import opened Store
  import opened History

  ghost predicate LogsIn(before: seq<Call>, c: Call, u: string, p: string) {
    c.op == Login(u, p) && (Answer(before, c) == OK || Answer(before, c) == REGISTER)
  }

  ghost predicate LogsOut(before: seq<Call>, c: Call, u: string) {
    && ((c.op.Logout? && c.op.user == u) || (c.op.Unregister? && c.op.user == u))
    && Answer(before, c) == OK
  }

  /** u logged in with p at call k and has not successfully logged out or unregistered since. */
  ghost predicate InSessionSince(calls: seq<Call>, k: nat, u: string, p: string)
    requires k < |calls|
  {
    && LogsIn(calls[..k], calls[k], u, p)
    && forall m :: k < m < |calls| ==> !LogsOut(calls[..m], calls[m], u)
  }

  ghost predicate InSession(calls: seq<Call>, u: string, p: string) {
    exists k :: 0 <= k < |calls| && InSessionSince(calls, k, u, p)
  }

  /** May Open, Bid and CloseAuction act for u with password p? */
  predicate MayAct(accounts: Accounts, u: string, p: string) {
    LoggedIn(accounts, u) && CorrectPassword(accounts, u, p)
  }

  lemma SinceStep(before: seq<Call>, c: Call, k: nat, u: string, p: string)
    requires k < |before|
    ensures InSessionSince(before + [c], k, u, p) <==> InSessionSince(before, k, u, p) && !LogsOut(before, c, u)
  {
    var calls := before + [c];
    assert calls[..k] == before[..k] && calls[..|before|] == before;
    forall m | k < m < |before| ensures LogsOut(calls[..m], calls[m], u) <==> LogsOut(before[..m], before[m], u) {
      assert calls[..m] == before[..m];
    }
  }

  lemma SessionStep(before: seq<Call>, c: Call, u: string, p: string)
    ensures InSession(before + [c], u, p) <==>
            LogsIn(before, c, u, p) || (InSession(before, u, p) && !LogsOut(before, c, u))
  {
    var calls := before + [c];
    var n := |before|;
    assert calls[..n] == before;
    assert InSessionSince(calls, n, u, p) <==> LogsIn(before, c, u, p);
    forall k | 0 <= k < n
      ensures InSessionSince(calls, k, u, p) <==> InSessionSince(before, k, u, p) && !LogsOut(before, c, u)
    {
      SinceStep(before, c, k, u, p);
    }
  }

  predicate OnAccounts(op: Op) { op.Login? || op.Logout? || op.Unregister? }

  lemma OthersKeepAccounts(f: Files, op: Op, now: nat)
    requires !OnAccounts(op)
    ensures Do(f, op, now).files.accounts == f.accounts
  {
  }

  /** How an account operation changes who may act. */
  lemma AccountsMayAct(accounts: Accounts, op: Op, r: (Accounts, Reply), u: string, p: string)
    requires LoginsHavePasswords(accounts) && OnAccounts(op)
    requires r == match op
                  case Login(v, q) => LoginAccount(accounts, v, q)
                  case Logout(v, q) => LogoutAccount(accounts, v, q)
                  case _ => UnregisterAccount(accounts, op.user, op.password)
    ensures LoginsHavePasswords(r.0)
    ensures MayAct(r.0, u, p) <==>
            (op == Login(u, p) && (r.1 == OK || r.1 == REGISTER))
            || (MayAct(accounts, u, p) && !(r.1 == OK && !op.Login? && op.user == u))
  {
  }

  /** How one call changes who may act. */
  lemma MayActStep(f: Files, op: Op, now: nat, u: string, p: string)
    requires LoginsHavePasswords(f.accounts)
    ensures var r := Do(f, op, now);
            && LoginsHavePasswords(r.files.accounts)
            && (MayAct(r.files.accounts, u, p) <==>
                (op == Login(u, p) && (r.reply == OK || r.reply == REGISTER))
                || (MayAct(f.accounts, u, p)
                    && !(r.reply == OK && ((op.Logout? && op.user == u) || (op.Unregister? && op.user == u)))))
  {
    match op
    case Login(v, q) => AccountsMayAct(f.accounts, op, LoginAccount(f.accounts, v, q), u, p);
    case Logout(v, q) => AccountsMayAct(f.accounts, op, LogoutAccount(f.accounts, v, q), u, p);
    case Unregister(v, q) => AccountsMayAct(f.accounts, op, UnregisterAccount(f.accounts, v, q), u, p);
    case _ => OthersKeepAccounts(f, op, now);
  }

  /**
   * The files let u act with p exactly when the answers so far say so: u logged in with p and has
   * not logged out or unregistered since. And a login file always has its password file.
   */
  lemma {:induction false} FilesKnowTheSession(calls: seq<Call>, u: string, p: string)
    ensures MayAct(Run(calls).accounts, u, p) <==> InSession(calls, u, p)
    ensures LoginsHavePasswords(Run(calls).accounts)
  {
    if calls != [] {
      var n := |calls| - 1;
      FilesKnowTheSession(calls[..n], u, p);
      MayActStep(Run(calls[..n]), calls[n].op, calls[n].now, u, p);
      assert calls[..n] + [calls[n]] == calls;
      SessionStep(calls[..n], calls[n], u, p);
    }
  }

  /** A call that acts for a user: it opens, closes or bids. */
  ghost predicate ActsFor(op: Op, u: string, p: string) {
    && (op.Open? || op.Close? || op.Bid?)
    && op.user == u && op.password == p
  }

  predicate Succeeds(reply: Reply) { reply.Code? && reply.code >= 0 }

  lemma EffectNeedsAccount(f: Files, op: Op, now: nat, u: string, p: string)
    requires ActsFor(op, u, p)
    requires Succeeds(Do(f, op, now).reply) || Do(f, op, now).files != f
    ensures MayAct(f.accounts, u, p)
  {
  }

  /** Without a session, Open, CloseAuction and Bid change nothing and do not succeed. */
  lemma EffectsAreAuthorised(calls: seq<Call>, c: Call, u: string, p: string)
    requires ActsFor(c.op, u, p)
    requires Succeeds(Answer(calls, c)) || Do(Run(calls), c.op, c.now).files != Run(calls)
    ensures InSession(calls, u, p)
  {
    EffectNeedsAccount(Run(calls), c.op, c.now, u, p);
    FilesKnowTheSession(calls, u, p);
  }

  /** The password with which u last registered, unless it has unregistered since. */
  ghost function Registered(calls: seq<Call>, u: string): Option<string> {
    if calls == [] then None
    else
      var n := |calls| - 1;
      var c := calls[n];
      var r := Answer(calls[..n], c);
      if c.op.Login? && c.op.user == u && r == REGISTER then Some(c.op.password)
      else if c.op.Unregister? && c.op.user == u && r == OK then None
      else Registered(calls[..n], u)
  }

  function PasswordOf(accounts: Accounts, u: string): Option<string> {
    if u in accounts then accounts[u].password else None
  }

  lemma PasswordStep(f: Files, op: Op, now: nat, u: string)
    ensures var r := Do(f, op, now);
            PasswordOf(r.files.accounts, u) ==
            if op.Login? && op.user == u && r.reply == REGISTER then Some(op.password)
            else if op.Unregister? && op.user == u && r.reply == OK then None
            else PasswordOf(f.accounts, u)
  {
  }

  /** The stored password changes only at a Login that answers REGISTER or a successful Unregister. */
  lemma {:induction false} PasswordIsTheRegistered(calls: seq<Call>, u: string)
    ensures Registered(calls, u) == PasswordOf(Run(calls).accounts, u)
  {
    if calls != [] {
      var n := |calls| - 1;
      PasswordIsTheRegistered(calls[..n], u);
      PasswordStep(Run(calls[..n]), calls[n].op, calls[n].now, u);
    }
  }
}
