// The user table of manager/users.py and the sessions manager/auth.py reads
// back from it on every request: a signed cookie, nothing kept on the server.
module Sessions {
  import opened Text

  // ------------------------------------------------------------ the accounts

  datatype Role = Admin | Operator

  datatype Account = Account(
    role: Role, enabled: bool, hash: string, mustChange: bool,
    names: Option<(string, string)>, epoch: int)

  // manager_users by username, and user_audit.
  type Users = map<string, Account>

  datatype Line = Line(actor: string, action: string, target: string)

  // What happens to the table. SignedOut: closeSession ran for that name;
  // `online` says whether the database answered.
  datatype Change =
    | Created(name: string, role: Role, hash: string, mustChange: bool, names: Option<(string, string)>)
    | PasswordSet(name: string, hash: string, mustChange: bool)
    | Updated(name: string, newNames: Option<(string, string)>, newRole: Option<Role>, newEnabled: Option<bool>)
    | SignedOut(name: string, online: bool)
    | Deleted(name: string)

  // The row after its UPDATE.
  function Changed(a: Account, c: Change): Account {
    match c
    case Created(_, _, _, _, _) => a
    case PasswordSet(_, hash, mustChange) => a.(hash := hash, mustChange := mustChange, epoch := a.epoch + 1)
    case Updated(_, names, role, enabled) =>
      var b := a.(names := if names.Some? then names else a.names,
                  role := ValueOr(role, a.role), enabled := ValueOr(enabled, a.enabled));
      if role.Some? || enabled.Some? then b.(epoch := a.epoch + 1) else b
    case SignedOut(_, online) => if online then a.(epoch := a.epoch + 1) else a
    case Deleted(_) => a
  }

  // The statement touches a row.
  predicate Touches(u: Users, c: Change) {
    match c
    case Created(name, _, _, _, _) => name !in u
    case Updated(name, names, role, enabled) => name in u && (names.Some? || role.Some? || enabled.Some?)
    case SignedOut(name, online) => name in u && online
    case _ => c.name in u
  }

  function After(u: Users, c: Change): Users {
    if !Touches(u, c) then u
    else match c
      case Created(name, role, hash, mustChange, names) =>
        u[name := Account(role, true, hash, mustChange, names, 0)]
      case Deleted(name) => u - {name}
      case _ => u[c.name := Changed(u[c.name], c)]
  }

  // The table after a run.
  function Run(u: Users, h: seq<Change>): Users {
    if h == [] then u else After(Run(u, h[..|h| - 1]), h[|h| - 1])
  }

  lemma RunAppend(u: Users, h: seq<Change>, c: Change)
    ensures Run(u, h + [c]) == After(Run(u, h), c)
  {
    assert (h + [c])[..|h|] == h;
  }

  // ----------------------------------------------------------- the sessions

  // The three keys of request.session; None is an absent one.
  datatype Cookie = Cookie(user: Option<string>, epoch: Option<int>, at: Option<int>)

  const CLEARED := Cookie(None, None, None)

  // Opened at the instant t, in seconds.
  function Opened(name: string, a: Account, t: real): Cookie {
    Cookie(Some(name), Some(a.epoch), Some(t.Floor))
  }

  // At most `hours` old.
  predicate Recent(c: Cookie, now: real, hours: nat) {
    c.at.Some? && now - c.at.value as real <= (hours * 3600) as real
  }

  predicate Named(c: Cookie) { c.user.Some? && c.user.value != "" }

  predicate Matches(u: Users, c: Cookie) {
    Named(c) && c.user.value in u && u[c.user.value].enabled && c.epoch == Some(u[c.user.value].epoch)
  }

  predicate Accepted(u: Users, c: Cookie, now: real, hours: nat) {
    Recent(c, now, hours) && Matches(u, c)
  }

  // --------------------------------------------------------------- the runs

  // What must end the account's sessions: a password, a role or a state set,
  // a sign-out that reached the database, the account removed.
  predicate Ends(c: Change, name: string) {
    c.name == name &&
    match c
    case Created(_, _, _, _, _) => false
    case PasswordSet(_, _, _) => true
    case Updated(_, _, role, enabled) => role.Some? || enabled.Some?
    case SignedOut(_, online) => online
    case Deleted(_) => true
  }

  ghost predicate Untouched(h: seq<Change>, i: nat, j: nat, name: string)
    requires i <= j <= |h|
  {
    forall k | i <= k < j :: !Ends(h[k], name)
  }

  // Step k creates a name the table does not hold.
  predicate Reborn(u: Users, h: seq<Change>, k: nat, name: string)
    requires k < |h|
  {
    h[k].Created? && h[k].name == name && name !in Run(u, h[..k])
  }

  ghost predicate NeverReborn(u: Users, h: seq<Change>, i: nat, j: nat, name: string)
    requires i <= j <= |h|
  {
    forall k | i <= k < j :: !Reborn(u, h, k, name)
  }

  // How many of the steps i to j bump the epoch of the name's row.
  function Bumps(h: seq<Change>, i: nat, j: nat, name: string): nat
    requires i <= j <= |h|
    decreases j - i
  {
    if i == j then 0
    else Bumps(h, i, j - 1, name) + if Ends(h[j - 1], name) && !h[j - 1].Deleted? then 1 else 0
  }

  // The account is the one it was, but for its epoch and what the person is called.
  predicate SameRights(a: Account, b: Account) {
    a.role == b.role && a.enabled == b.enabled && a.hash == b.hash && a.mustChange == b.mustChange
  }

  // One step on a name that is in the table, or is not being created.
  lemma StepKeepsRow(u: Users, c: Change, name: string)
    requires name in u || !(c.Created? && c.name == name)
    ensures name in After(u, c) ==> name in u
    ensures name in After(u, c) ==>
              After(u, c)[name].epoch == u[name].epoch + if Ends(c, name) && !c.Deleted? then 1 else 0
    ensures name in u && !Ends(c, name) ==> name in After(u, c) && SameRights(u[name], After(u, c)[name])
    ensures name in u && name !in After(u, c) ==> c == Deleted(name)
  {
  }

  // As long as the name is not created anew, its epoch counts what happened.
  lemma {:induction false} EpochCounts(u: Users, h: seq<Change>, i: nat, j: nat, name: string)
    requires i <= j <= |h| && NeverReborn(u, h, i, j, name)
    ensures name in Run(u, h[..j]) ==> name in Run(u, h[..i])
    ensures name in Run(u, h[..j]) ==>
              Run(u, h[..j])[name].epoch == Run(u, h[..i])[name].epoch + Bumps(h, i, j, name)
    ensures name in Run(u, h[..i]) && Untouched(h, i, j, name) ==>
              name in Run(u, h[..j]) && SameRights(Run(u, h[..i])[name], Run(u, h[..j])[name])
    decreases j - i
  {
    if i < j {
      EpochCounts(u, h, i, j - 1, name);
      assert h[..j][..j - 1] == h[..j - 1];
      assert !Reborn(u, h, j - 1, name);
      StepKeepsRow(Run(u, h[..j - 1]), h[j - 1], name);
    }
  }

  lemma {:induction false} NoBumpsUntouched(h: seq<Change>, i: nat, j: nat, name: string)
    requires i <= j <= |h|
    ensures Bumps(h, i, j, name) == 0 <==> (forall k | i <= k < j :: Ends(h[k], name) ==> h[k].Deleted?)
    decreases j - i
  {
    if i < j {
      NoBumpsUntouched(h, i, j - 1, name);
    }
  }

  // A deleted name stays out of the table until it is created again.
  lemma {:induction false} GoneStaysGone(u: Users, h: seq<Change>, i: nat, j: nat, name: string)
    requires i <= j <= |h| && NeverReborn(u, h, i, j, name)
    requires exists k :: i <= k < j && h[k] == Deleted(name)
    ensures name !in Run(u, h[..j])
  {
    var k :| i <= k < j && h[k] == Deleted(name);
    assert h[..k + 1][..k] == h[..k];
    EpochCounts(u, h, k + 1, j, name);
  }

  // A session opened at step i on an enabled account is accepted at step j
  // exactly when it is recent enough and nothing ended it in between.
  lemma AcceptedIffUntouched(u: Users, h: seq<Change>, i: nat, j: nat, name: string, t: real, now: real, hours: nat)
    requires i <= j <= |h| && NeverReborn(u, h, i, j, name)
    requires name != "" && name in Run(u, h[..i]) && Run(u, h[..i])[name].enabled
    ensures Accepted(Run(u, h[..j]), Opened(name, Run(u, h[..i])[name], t), now, hours) <==>
            Recent(Opened(name, Run(u, h[..i])[name], t), now, hours) && Untouched(h, i, j, name)
    ensures Untouched(h, i, j, name) ==>
              name in Run(u, h[..j]) && SameRights(Run(u, h[..i])[name], Run(u, h[..j])[name])
  {
    EpochCounts(u, h, i, j, name);
    NoBumpsUntouched(h, i, j, name);
    if name in Run(u, h[..j]) {
      assert forall k | i <= k < j :: h[k] != Deleted(name) by {
        if k :| i <= k < j && h[k] == Deleted(name) {
          GoneStaysGone(u, h, i, j, name);
          assert false;
        }
      }
    }
  }

  // Opening rounds the instant down, so an accepted session is never older
  // than the limit, and one a second younger than the limit is not too old.
  lemma AgeIsBounded(name: string, a: Account, t: real, now: real, hours: nat)
    ensures Recent(Opened(name, a, t), now, hours) ==> now - t <= (hours * 3600) as real
    ensures now - t <= (hours * 3600) as real - 1.0 ==> Recent(Opened(name, a, t), now, hours)
  {
  }

  // A session refused once is refused on every later request.
  lemma RefusedForEver(u: Users, h: seq<Change>, i: nat, j: nat, l: nat, name: string,
                       t: real, now: real, later: real, hours: nat)
    requires i <= j <= l <= |h| && NeverReborn(u, h, i, l, name) && now <= later
    requires name != "" && name in Run(u, h[..i]) && Run(u, h[..i])[name].enabled
    requires !Accepted(Run(u, h[..j]), Opened(name, Run(u, h[..i])[name], t), now, hours)
    ensures !Accepted(Run(u, h[..l]), Opened(name, Run(u, h[..i])[name], t), later, hours)
  {
    AcceptedIffUntouched(u, h, i, j, name, t, now, hours);
    AcceptedIffUntouched(u, h, i, l, name, t, later, hours);
  }

  // A cookie of any origin whose epoch fell behind: the epoch only grows.
  lemma StaleEpochStaysStale(u: Users, h: seq<Change>, j: nat, l: nat, c: Cookie, later: real, hours: nat)
    requires j <= l <= |h| && Named(c) && c.epoch.Some? && NeverReborn(u, h, j, l, c.user.value)
    requires c.user.value in Run(u, h[..j]) ==> c.epoch.value < Run(u, h[..j])[c.user.value].epoch
    ensures !Accepted(Run(u, h[..l]), c, later, hours)
  {
    EpochCounts(u, h, j, l, c.user.value);
  }

  // Created again, a name starts over at epoch 0: a session of the account
  // that was deleted is accepted exactly when the new one's epoch has climbed
  // to the old session's. r is the last creation before step j.
  lemma RevivedByRebirth(u: Users, h: seq<Change>, i: nat, r: nat, j: nat, name: string,
                         t: real, now: real, hours: nat)
    requires i <= r < j <= |h| && Reborn(u, h, r, name) && NeverReborn(u, h, r + 1, j, name)
    requires name != "" && name in Run(u, h[..i])
    ensures Accepted(Run(u, h[..j]), Opened(name, Run(u, h[..i])[name], t), now, hours) <==>
            Recent(Opened(name, Run(u, h[..i])[name], t), now, hours) &&
            name in Run(u, h[..j]) && Run(u, h[..j])[name].enabled &&
            Bumps(h, r + 1, j, name) == Run(u, h[..i])[name].epoch
  {
    assert h[..r + 1][..r] == h[..r];
    EpochCounts(u, h, r + 1, j, name);
  }

  // The shortest such run: a session opened before the account was ever
  // bumped survives its deletion and the creation of a namesake.
  lemma NamesakeInheritsSession(u: Users, name: string, a: Account, b: Change, t: real, hours: nat)
    requires name != "" && name in u && u[name] == a && a.epoch == 0
    requires b.Created? && b.name == name
    ensures Accepted(Run(u, [Deleted(name), b]), Opened(name, a, t), t, hours + 1)
  {
    var h := [Deleted(name), b];
    assert h[..1] == [Deleted(name)] && h[..1][..0] == [];
    assert name !in Run(u, h[..1]);
  }

  // ---------------------------------------------------------------- methods

  // manager_users and user_audit; `history` is what was asked of the table.
  class UserTable {
    var rows: Users
    var audit: seq<Line>
    ghost const start: Users
    ghost var history: seq<Change>

    ghost predicate Valid()
      reads this
    {
      rows == Run(start, history)
    }

    constructor (rows: Users)
      ensures Valid() && this.rows == rows && start == rows && history == [] && audit == []
    {
      this.rows := rows;
      this.start := rows;
      this.history := [];
      this.audit := [];
    }

    function GetUser(name: string): (r: Option<Account>)
      reads this
    {
      if name in rows then Some(rows[name]) else None
    }

    // Every row but one is as it was.
    twostate predicate OthersKept(name: string)
      reads this
    {
      forall n | n != name :: (n in rows <==> n in old(rows)) && (n in rows ==> rows[n] == old(rows)[n])
    }

    ghost method Log(c: Change)
      requires rows == After(Run(start, history), c)
      modifies this`history
      ensures Valid() && history == old(history) + [c]
    {
      RunAppend(start, history, c);
      history := history + [c];
    }

    // The audit line goes with a row that changed, in the same transaction.
    method WriteLine(written: bool, line: Option<Line>)
      modifies this`audit
      ensures audit == old(audit) + if written && line.Some? then [line.value] else []
    {
      if written && line.Some? {
        audit := audit + [line.value];
      }
    }

    // A name already taken raises: nothing is written.
    method CreateUser(name: string, role: Role, hash: string, mustChange: bool,
                      names: Option<(string, string)>, line: Option<Line>)
      returns (created: Option<Account>)
      requires Valid()
      modifies this
      ensures Valid() && history == old(history) + [Created(name, role, hash, mustChange, names)]
      ensures created.Some? <==> name !in old(rows)
      ensures created.Some? ==> name in rows && rows[name] == created.value
      ensures created.Some? ==> created.value == Account(role, true, hash, mustChange, names, 0)
      ensures OthersKept(name) && (created.None? ==> rows == old(rows))
      ensures audit == old(audit) + if created.Some? && line.Some? then [line.value] else []
    {
      created := None;
      if name !in rows {
        created := Some(Account(role, true, hash, mustChange, names, 0));
        rows := rows[name := created.value];
        WriteLine(true, line);
      }
      Log(Created(name, role, hash, mustChange, names));
    }

    method SetPassword(name: string, hash: string, mustChange: bool, line: Option<Line>)
      returns (account: Option<Account>)
      requires Valid()
      modifies this
      ensures Valid() && history == old(history) + [PasswordSet(name, hash, mustChange)]
      ensures account == GetUser(name) && OthersKept(name)
      ensures name in rows <==> name in old(rows)
      ensures account.Some? ==> account.value.hash == hash && account.value.mustChange == mustChange
      ensures account.Some? ==> account.value.epoch == old(rows)[name].epoch + 1
      ensures account.Some? ==> account.value.role == old(rows)[name].role
      ensures account.Some? ==> account.value.enabled == old(rows)[name].enabled
      ensures account.Some? ==> account.value.names == old(rows)[name].names
      ensures audit == old(audit) + if name in old(rows) && line.Some? then [line.value] else []
    {
      account := None;
      if name in rows {
        account := Some(rows[name].(hash := hash, mustChange := mustChange, epoch := rows[name].epoch + 1));
        rows := rows[name := account.value];
        WriteLine(true, line);
      }
      Log(PasswordSet(name, hash, mustChange));
    }

    // With nothing to set the account is only read.
    method UpdateAccount(name: string, names: Option<(string, string)>, role: Option<Role>,
                         enabled: Option<bool>, line: Option<Line>)
      returns (account: Option<Account>)
      requires Valid()
      modifies this
      ensures Valid() && history == old(history) + [Updated(name, names, role, enabled)]
      ensures account == GetUser(name) && OthersKept(name)
      ensures name in rows <==> name in old(rows)
      ensures account.Some? ==> account.value.hash == old(rows)[name].hash
      ensures account.Some? ==> account.value.mustChange == old(rows)[name].mustChange
      ensures account.Some? ==> account.value.role == ValueOr(role, old(rows)[name].role)
      ensures account.Some? ==> account.value.enabled == ValueOr(enabled, old(rows)[name].enabled)
      ensures account.Some? ==> account.value.names == if names.Some? then names else old(rows)[name].names
      ensures account.Some? ==>
        account.value.epoch == old(rows)[name].epoch + if role.Some? || enabled.Some? then 1 else 0
      ensures audit == old(audit) +
              if Touches(old(rows), Updated(name, names, role, enabled)) && line.Some? then [line.value] else []
    {
      account := GetUser(name);
      if (names.Some? || role.Some? || enabled.Some?) && account.Some? {
        var row := account.value;
        if names.Some? { row := row.(names := names); }
        if role.Some? { row := row.(role := role.value); }
        if enabled.Some? { row := row.(enabled := enabled.value); }
        if role.Some? || enabled.Some? { row := row.(epoch := row.epoch + 1); }
        account := Some(row);
        rows := rows[name := row];
        WriteLine(true, line);
      }
      Log(Updated(name, names, role, enabled));
    }

    // `online` is false when the statement raises: the table is as it was.
    method BumpEpoch(name: string, online: bool)
      requires Valid()
      modifies this`rows, this`history
      ensures Valid() && history == old(history) + [SignedOut(name, online)]
      ensures OthersKept(name) && (!online ==> rows == old(rows))
      ensures online && name in rows ==> rows[name] == old(rows)[name].(epoch := old(rows)[name].epoch + 1)
    {
      if online && name in rows {
        rows := rows[name := rows[name].(epoch := rows[name].epoch + 1)];
      }
      Log(SignedOut(name, online));
    }

    method DeleteUser(name: string, line: Option<Line>) returns (gone: bool)
      requires Valid()
      modifies this
      ensures Valid() && history == old(history) + [Deleted(name)]
      ensures gone <==> name in old(rows)
      ensures name !in rows && OthersKept(name)
      ensures audit == old(audit) + if gone && line.Some? then [line.value] else []
    {
      gone := name in rows;
      if gone {
        rows := rows - {name};
        WriteLine(true, line);
      }
      Log(Deleted(name));
    }
  }

  // request.session of one browser.
  class Session {
    var user: Option<string>
    var epoch: Option<int>
    var at: Option<int>

    function Held(): Cookie
      reads this
    {
      Cookie(user, epoch, at)
    }

    constructor (c: Cookie)
      ensures Held() == c
    {
      user, epoch, at := c.user, c.epoch, c.at;
    }

    method Clear()
      modifies this
      ensures Held() == CLEARED
    {
      user, epoch, at := None, None, None;
    }

    // The keys are written one by one over whatever the session held.
    method OpenSession(name: string, account: Account, now: real)
      modifies this
      ensures Held() == Opened(name, account, now)
    {
      user := Some(name);
      epoch := Some(account.epoch);
      at := Some(now.Floor);
    }

    // The browser's cookie always goes. The account's epoch is bumped whatever
    // the cookie's own epoch was, unless the database is down.
    method CloseSession(table: UserTable, online: bool)
      requires table.Valid()
      modifies this, table`rows, table`history
      ensures Held() == CLEARED && table.Valid()
      ensures table.history == old(table.history) +
              if Named(old(Held())) then [SignedOut(old(user).value, online)] else []
    {
      var name := user;
      Clear();
      if name.Some? && name.value != "" {
        table.BumpEpoch(name.value, online);
      } else {
        assert table.history == old(table.history) + [];
      }
    }

    // The account behind the session, or None; a session refused for anything
    // but having no name is cleared.
    method SessionAccount(table: UserTable, now: real, hours: nat) returns (account: Option<Account>)
      requires table.Valid()
      modifies this
      ensures account.Some? <==> Accepted(Run(table.start, table.history), old(Held()), now, hours)
      ensures account.Some? ==> account == table.GetUser(old(user).value)
      ensures Held() == if account.Some? || !Named(old(Held())) then old(Held()) else CLEARED
    {
      account := None;
      if user.None? || user.value == "" {
        return;
      }
      if at.None? || now - at.value as real > (hours * 3600) as real {
        Clear();
        return;
      }
      var row := table.GetUser(user.value);
      if row.None? || !row.value.enabled || Some(row.value.epoch) != epoch {
        Clear();
        return;
      }
      account := row;
    }
  }

  // Whatever happened before and happens after, a sign-out that reached the
  // database leaves no session opened earlier.
  lemma {:induction false} SignOutEndsEveryCopy(u: Users, h: seq<Change>, i: nat, name: string, rest: seq<Change>,
                             t: real, now: real, hours: nat)
    requires i <= |h| && name != "" && name in Run(u, h[..i]) && Run(u, h[..i])[name].enabled
    requires NeverReborn(u, h + [SignedOut(name, true)] + rest, i, |h| + 1 + |rest|, name)
    ensures !Accepted(Run(u, h + [SignedOut(name, true)] + rest), Opened(name, Run(u, h[..i])[name], t), now, hours)
  {
    var all := h + [SignedOut(name, true)] + rest;
    assert all[..i] == h[..i] && all[..|all|] == all;
    AcceptedIffUntouched(u, all, i, |all|, name, t, now, hours);
    assert all[|h|] == SignedOut(name, true);
  }

  // Signed out while the database is down: a copy kept elsewhere fares as if
  // nothing had happened.
  lemma OfflineSignOutEndsNoCopy(u: Users, h: seq<Change>, name: string, c: Cookie, now: real, hours: nat)
    ensures Accepted(Run(u, h + [SignedOut(name, false)]), c, now, hours) == Accepted(Run(u, h), c, now, hours)
  {
    RunAppend(u, h, SignedOut(name, false));
  }
}
