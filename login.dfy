/**
 * The login page: the remembered-login check when the page opens, the
 * password decision, and the dialog that asks before replacing a login
 * held on another device. Navigation is recorded as the page the router
 * is sent to.
 */
module Login {
  import opened Wrappers
  import opened Types
  import opened Lists
  import opened Storage
  import opened Sessions

  /** The administrator's password. */
  const AdminPassword: string := "110604"

  /** A remembered login lasts 30 minutes (in ms). */
  const LoginLifetimeMs: int := 30 * 60 * 1000

  datatype Destination = AdminDashboard | QuizPage

  /** What `handleLogin` does with a registration number and password. */
  datatype LoginOutcome =
    | AdminLogin        // session created, on to the dashboard
    | WrongAdminPassword
    | WrongPassword
    | AskToReplace      // a session of the number exists: the dialog opens
    | StudentLogin      // session created, on to the quiz

  /**
   * The decision of `handleLogin`. The registration-number check between
   * the two password checks tests the Promise `getStudentName` returns,
   * which is always truthy, so it never refuses anyone and is absent here.
   */
  function LoginDecision(regNumber: string, password: string, sessions: seq<DeviceSession>): (o: LoginOutcome)
    ensures o == AdminLogin <==> regNumber == AdminRegNumber && password == AdminPassword
    ensures o == WrongAdminPassword <==> regNumber == AdminRegNumber && password != AdminPassword
    ensures o == WrongPassword <==> regNumber != AdminRegNumber && password != regNumber
    ensures o == AskToReplace <==>
              regNumber != AdminRegNumber && password == regNumber
              && exists i :: 0 <= i < |sessions| && sessions[i].regNumber == regNumber
    ensures o == StudentLogin <==>
              regNumber != AdminRegNumber && password == regNumber
              && forall i :: 0 <= i < |sessions| ==> sessions[i].regNumber != regNumber
  {
    if regNumber == AdminRegNumber then
      if password == AdminPassword then AdminLogin else WrongAdminPassword
    else if password != regNumber then WrongPassword
    else if Find(sessions, SessionOf(regNumber)).Some? then
      assert Find(sessions, SessionOf(regNumber)).value in sessions;
      AskToReplace
    else StudentLogin
  }

  /** Any number other than the administrator's is let in with itself as password. */
  lemma AnyNumberIsItsOwnPassword(regNumber: string, sessions: seq<DeviceSession>)
    requires regNumber != AdminRegNumber
    ensures LoginDecision(regNumber, regNumber, sessions) in {AskToReplace, StudentLogin}
  {
  }

  /**
   * The remembered login is dropped: no registration number (or an empty
   * one), no login time, or more than 30 minutes since it.
   */
  predicate LoginExpired(regNumber: Option<string>, lastLoginTime: Option<int>, now: int) {
    regNumber.None? || regNumber.value == "" || lastLoginTime.None? || now - lastLoginTime.value > LoginLifetimeMs
  }

  /** Where a validated remembered login is sent. */
  function Home(regNumber: string): (d: Destination)
    ensures d == AdminDashboard <==> regNumber == AdminRegNumber
  {
    if regNumber == AdminRegNumber then AdminDashboard else QuizPage
  }

  /** A pending login kept while the replace dialog is open. */
  datatype PendingLogin = PendingLogin(regNumber: string, password: string)

  class LoginPage {
    const store: LocalStore
    var error: string
    var loading: bool
    var showSessionDialog: bool
    var pendingLogin: Option<PendingLogin>
    var notification: Option<string>
    /** The page `router.push` was last sent to, if any. */
    var redirect: Option<Destination>

    constructor (store: LocalStore)
      ensures this.store == store
      ensures error == "" && loading && !showSessionDialog && pendingLogin.None?
      ensures notification.None? && redirect.None?
    {
      this.store := store;
      error, loading, showSessionDialog := "", true, false;
      pendingLogin, notification, redirect := None, None, None;
    }

    /**
     * The mount effect: expired sessions are cleaned up; `?logout=true`
     * logs out; otherwise a remembered login that has not expired and
     * whose session validates is renewed and sent on, and any other is
     * forgotten.
     */
    method Mount(now: int, logout: bool)
      modifies store`sessions, store`regNumber, store`lastLoginTime, this`loading, this`notification, this`redirect
      ensures var cleaned := Filter(old(store.sessions), Unexpired(now));
              var reg := old(store.regNumber);
              && (logout ==>
                    && store.sessions == (if reg.Some? && reg.value != "" then Filter(cleaned, NotSessionOf(reg.value)) else cleaned)
                    && store.regNumber.None? && store.lastLoginTime.None? && !loading && redirect == old(redirect))
              && (!logout && LoginExpired(reg, old(store.lastLoginTime), now) ==>
                    store.sessions == cleaned && store.regNumber.None? && store.lastLoginTime.None? && !loading && redirect == old(redirect))
              && (!logout && !LoginExpired(reg, old(store.lastLoginTime), now) ==>
                    && store.sessions == cleaned
                    && (if SessionValid(store.deviceId, cleaned, reg.value) then
                          store.regNumber == reg && store.lastLoginTime == Some(now) && redirect == Some(Home(reg.value)) && loading == old(loading)
                        else
                          store.regNumber.None? && store.lastLoginTime.None? && !loading && redirect == old(redirect)))
    {
      CleanupSessions(store, now);
      if logout {
        var reg := store.regNumber;
        if reg.Some? && reg.value != "" {
          RemoveSession(store, reg.value);
        }
        store.regNumber, store.lastLoginTime := None, None;
        notification := Some("You have been successfully logged out");
        loading := false;
        return;
      }
      var reg := store.regNumber;
      var last := store.lastLoginTime;
      if LoginExpired(reg, last, now) {
        store.regNumber, store.lastLoginTime := None, None;
        loading := false;
        return;
      }
      var valid := ValidateSession(store, reg.value);
      if valid {
        store.lastLoginTime := Some(now);
        redirect := Some(Home(reg.value));
      } else {
        store.regNumber, store.lastLoginTime := None, None;
        notification := Some("Your session has expired or is invalid. Please log in again.");
        loading := false;
      }
    }

    /**
     * `handleLogin`: the administrator with the right password, or a
     * student without a session elsewhere, is logged in; a student with a
     * session is held pending and the dialog opens; a wrong password sets
     * the error and creates nothing.
     */
    method HandleLogin(regNumber: string, password: string, token: string, now: int)
      modifies store`deviceId, store`sessions, store`regNumber, store`lastLoginTime
      modifies this`error, this`redirect, this`pendingLogin, this`showSessionDialog
      ensures var o := LoginDecision(regNumber, password, old(store.sessions));
              && error == (if o == WrongAdminPassword then "Invalid admin password"
                           else if o == WrongPassword then "Invalid password" else old(error))
              && (o in {AdminLogin, StudentLogin} ==>
                    && store.regNumber == Some(regNumber) && store.lastLoginTime == Some(now)
                    && store.deviceId.Some? && store.deviceId.value != ""
                    && (HasDeviceId(old(store.deviceId)) ==> store.deviceId == old(store.deviceId))
                    && store.sessions == Touch(old(store.sessions), regNumber, store.deviceId.value, now)
                    && redirect == Some(if o == AdminLogin then AdminDashboard else QuizPage))
              && (o !in {AdminLogin, StudentLogin} ==>
                    && store.sessions == old(store.sessions) && store.deviceId == old(store.deviceId)
                    && store.regNumber == old(store.regNumber) && store.lastLoginTime == old(store.lastLoginTime)
                    && redirect == old(redirect))
              && (o == AskToReplace ==> pendingLogin == Some(PendingLogin(regNumber, password)) && showSessionDialog)
              && (o != AskToReplace ==> pendingLogin == old(pendingLogin) && showSessionDialog == old(showSessionDialog))
    {
      if regNumber == AdminRegNumber {
        if password == AdminPassword {
          var d := CreateSession(store, regNumber, token, now);
          store.regNumber, store.lastLoginTime := Some(regNumber), Some(now);
          redirect := Some(AdminDashboard);
        } else {
          error := "Invalid admin password";
        }
        return;
      }
      if password != regNumber {
        error := "Invalid password";
        return;
      }
      var existing := Find(store.sessions, SessionOf(regNumber));
      if existing.Some? {
        pendingLogin := Some(PendingLogin(regNumber, password));
        showSessionDialog := true;
      } else {
        CompleteLogin(regNumber, token, now);
      }
    }

    /**
     * `completeLogin`: `createSession` as the program has it (the number's
     * sessions on other devices are kept), the login remembered, on to the
     * quiz.
     */
    method CompleteLogin(regNumber: string, token: string, now: int)
      modifies store`deviceId, store`sessions, store`regNumber, store`lastLoginTime, this`redirect
      ensures store.deviceId.Some? && store.deviceId.value != ""
      ensures HasDeviceId(old(store.deviceId)) ==> store.deviceId == old(store.deviceId)
      ensures store.sessions == Touch(old(store.sessions), regNumber, store.deviceId.value, now)
      ensures store.regNumber == Some(regNumber) && store.lastLoginTime == Some(now)
      ensures redirect == Some(QuizPage)
    {
      var d := CreateSession(store, regNumber, token, now);
      store.regNumber, store.lastLoginTime := Some(regNumber), Some(now);
      redirect := Some(QuizPage);
    }

    /**
     * `handleForceLogin`: completes the pending login and closes the
     * dialog; the pending login itself is not cleared.
     */
    method HandleForceLogin(token: string, now: int)
      modifies store`deviceId, store`sessions, store`regNumber, store`lastLoginTime, this`redirect, this`showSessionDialog
      ensures !showSessionDialog
      ensures pendingLogin.Some? ==> && store.regNumber == Some(pendingLogin.value.regNumber) && store.lastLoginTime == Some(now)
                                     && store.deviceId.Some? && store.deviceId.value != ""
                                     && (HasDeviceId(old(store.deviceId)) ==> store.deviceId == old(store.deviceId))
                                     && store.sessions == Touch(old(store.sessions), pendingLogin.value.regNumber, store.deviceId.value, now)
                                     && redirect == Some(QuizPage)
      ensures pendingLogin.None? ==> && store.sessions == old(store.sessions) && store.deviceId == old(store.deviceId)
                                     && store.regNumber == old(store.regNumber)
                                     && store.lastLoginTime == old(store.lastLoginTime) && redirect == old(redirect)
    {
      if pendingLogin.Some? {
        CompleteLogin(pendingLogin.value.regNumber, token, now);
      }
      showSessionDialog := false;
    }

    /** `handleCancelLogin`: the pending login is dropped and nothing is created. */
    method HandleCancelLogin()
      modifies this`pendingLogin, this`showSessionDialog
      ensures pendingLogin.None? && !showSessionDialog
    {
      pendingLogin, showSessionDialog := None, false;
    }
  }

  /**
   * A login made on a device is recognised there when the page is opened
   * again within 30 minutes, provided the number had no session on another
   * device (as on the path without the dialog, where it had none at all):
   * the login has not expired, cleaning up keeps its session, and that
   * session is the number's first.
   */
  lemma LoginRememberedFor30Minutes(sessions: seq<DeviceSession>, regNumber: string, d: string, t: int, now: int)
    requires d != "" && regNumber != "" && t <= now <= t + LoginLifetimeMs
    requires forall i :: 0 <= i < |sessions| && sessions[i].regNumber == regNumber ==> sessions[i].deviceId == d
    ensures !LoginExpired(Some(regNumber), Some(t), now)
    ensures SessionValid(Some(d), Filter(Touch(sessions, regNumber, d, t), Unexpired(now)), regNumber)
  {
    var after := Touch(sessions, regNumber, d, t);
    var cleaned := Filter(after, Unexpired(now));
    assert forall s :: s in after && s.regNumber == regNumber ==> s.deviceId == d;
    assert DeviceSession(regNumber, d, t) in cleaned;
    var i := FindIndex(cleaned, SessionOf(regNumber));
    assert i.Some?;
    assert cleaned[i.value] in cleaned;
  }

  /** A student logging in without the dialog has no session anywhere, so the login is remembered. */
  lemma StudentLoginRemembered(sessions: seq<DeviceSession>, regNumber: string, d: string, t: int, now: int)
    requires LoginDecision(regNumber, regNumber, sessions) == StudentLogin
    requires d != "" && regNumber != "" && t <= now <= t + LoginLifetimeMs
    ensures SessionValid(Some(d), Filter(Touch(sessions, regNumber, d, t), Unexpired(now)), regNumber)
  {
    LoginRememberedFor30Minutes(sessions, regNumber, d, t, now);
  }

  /**
   * A forced login is not remembered: when the number's first session is
   * on another device and still fresh, and this device has no session
   * before it, the list `completeLogin` saves keeps that session first, so
   * the next visit of the page discards the login.
   */
  lemma ForcedLoginNotRemembered(sessions: seq<DeviceSession>, regNumber: string, d: string, t: int, now: int, k: nat)
    requires regNumber != AdminRegNumber
    requires k < |sessions| && sessions[k].regNumber == regNumber && sessions[k].deviceId != d
    requires forall j :: 0 <= j < k ==> sessions[j].regNumber != regNumber && sessions[j].deviceId != d
    requires now - sessions[k].timestamp < OneDayMs
    ensures LoginDecision(regNumber, regNumber, sessions) == AskToReplace
    ensures !SessionValid(Some(d), Filter(Touch(sessions, regNumber, d, t), Unexpired(now)), regNumber)
  {
    var after := Touch(sessions, regNumber, d, t);
    TouchKeepsPrefix(sessions, regNumber, d, t, k);
    FirstSurvivesCleanup(after, regNumber, now, k);
  }

  /** Touching a device whose first session comes after position `k` leaves the list up to `k` as it was. */
  lemma TouchKeepsPrefix(sessions: seq<DeviceSession>, reg: string, d: string, t: int, k: nat)
    requires k < |sessions| && forall j :: 0 <= j <= k ==> sessions[j].deviceId != d
    ensures var after := Touch(sessions, reg, d, t);
            k < |after| && forall j :: 0 <= j <= k ==> after[j] == sessions[j]
  {
  }

  /**
   * When the number's first session is at `k` and is still fresh, cleaning
   * up leaves it the number's first session.
   */
  lemma FirstSurvivesCleanup(after: seq<DeviceSession>, reg: string, now: int, k: nat)
    requires k < |after| && after[k].regNumber == reg && now - after[k].timestamp < OneDayMs
    requires forall j :: 0 <= j < k ==> after[j].regNumber != reg
    ensures var cleaned := Filter(after, Unexpired(now));
            FindIndex(cleaned, SessionOf(reg)).Some? && cleaned[FindIndex(cleaned, SessionOf(reg)).value] == after[k]
  {
    var a, b := after[..k], after[k..];
    assert after == a + b;
    FilterAppend(a, b, Unexpired(now));
    assert Filter(b, Unexpired(now)) == [b[0]] + Filter(b[1..], Unexpired(now));
    assert FindIndex(Filter(a, Unexpired(now)), SessionOf(reg)).None? by {
      forall x | x in Filter(a, Unexpired(now)) ensures x.regNumber != reg {
        var j :| 0 <= j < |a| && a[j] == x;
      }
    }
    FindIndexAppend(Filter(a, Unexpired(now)), Filter(b, Unexpired(now)), SessionOf(reg));
  }

  /** The finding's input reached through the dialog: the forced login on 'device_b' is discarded at the next visit. */
  lemma ForcedLoginExample()
    ensures var before := [DeviceSession("RA2411043010062", "device_a", 0)];
            && LoginDecision("RA2411043010062", "RA2411043010062", before) == AskToReplace
            && !SessionValid(Some("device_b"), Filter(Touch(before, "RA2411043010062", "device_b", 1), Unexpired(2)), "RA2411043010062")
  {
    ForcedLoginNotRemembered([DeviceSession("RA2411043010062", "device_a", 0)], "RA2411043010062", "device_b", 1, 2, 0);
  }
}
