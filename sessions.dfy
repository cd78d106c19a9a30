/**
 * Device sessions: which browser (device id) a registration number is
 * logged in on, kept as a stored list of sessions. The device id is drawn
 * once per browser from a random string and the clock, both parameters
 * here.
 */
module Sessions {
  import opened Wrappers
  import opened Types
  import opened Lists
  import opened Storage

  /** A session expires 24 hours after it was last written (in ms). */
  const OneDayMs: int := 24 * 60 * 60 * 1000

  /** `deviceId` read from storage is truthy: present and not empty. */
  predicate HasDeviceId(d: Option<string>) {
    d.Some? && d.value != ""
  }

  /**
   * `generateDeviceId`: the stored device id, or a new one
   * `device_<token>` stored for next time, where `token` stands for the
   * random digits and the clock reading.
   */
  method GenerateDeviceId(st: LocalStore, token: string) returns (d: string)
    modifies st`deviceId
    ensures d != "" && st.deviceId == Some(d)
    ensures HasDeviceId(old(st.deviceId)) ==> d == old(st.deviceId).value
    ensures !HasDeviceId(old(st.deviceId)) ==> d == "device_" + token
  {
    if HasDeviceId(st.deviceId) {
      return st.deviceId.value;
    }
    d := "device_" + token;
    st.deviceId := Some(d);
  }

  function OnDevice(d: string): DeviceSession -> bool {
    (s: DeviceSession) => s.deviceId == d
  }

  function SessionOf(reg: string): DeviceSession -> bool {
    (s: DeviceSession) => s.regNumber == reg
  }

  function NotSessionOf(reg: string): DeviceSession -> bool {
    (s: DeviceSession) => s.regNumber != reg
  }

  /** `s => s.regNumber === reg && s.deviceId !== d`. */
  function OnOtherDevice(reg: string, d: string): DeviceSession -> bool {
    (s: DeviceSession) => s.regNumber == reg && s.deviceId != d
  }

  /** `s => !(s.regNumber === reg && s.deviceId !== d)`. */
  function NotOnOtherDevice(reg: string, d: string): DeviceSession -> bool {
    (s: DeviceSession) => !(s.regNumber == reg && s.deviceId != d)
  }

  /**
   * The session list after recording a login of `reg` on device `d` at
   * `now`: the first session of the device is rewritten in place, or a new
   * one is pushed.
   */
  function Touch(sessions: seq<DeviceSession>, reg: string, d: string, now: int): (r: seq<DeviceSession>)
    ensures DeviceSession(reg, d, now) in r
    ensures |sessions| <= |r| <= |sessions| + 1
    ensures forall s :: s in sessions && s.deviceId != d ==> s in r
    ensures forall s :: s in r ==> s in sessions || s == DeviceSession(reg, d, now)
    ensures || (exists i :: 0 <= i < |sessions| && sessions[i].deviceId == d
                            && (forall j :: 0 <= j < i ==> sessions[j].deviceId != d)
                            && r == sessions[i := DeviceSession(reg, d, now)])
            || ((forall s :: s in sessions ==> s.deviceId != d) && r == sessions + [DeviceSession(reg, d, now)])
  {
    match FindIndex(sessions, OnDevice(d))
    case Some(i) =>
      var r := sessions[i := DeviceSession(reg, d, now)];
      assert r[i] == DeviceSession(reg, d, now);
      assert forall s :: s in sessions && s.deviceId != d ==> s in r by {
        forall s | s in sessions && s.deviceId != d ensures s in r {
          var j :| 0 <= j < |sessions| && sessions[j] == s;
          assert r[j] == s;
        }
      }
      assert forall j :: 0 <= j < |r| ==> r[j] == sessions[j] || r[j] == DeviceSession(reg, d, now);
      r
    case None => sessions + [DeviceSession(reg, d, now)]
  }

  /**
   * `createSession` as written: the list without `reg`'s sessions on other
   * devices is written, but then the original list, with the device's
   * session touched, is written over it. Answers the device id.
   */
  method CreateSession(st: LocalStore, reg: string, token: string, now: int) returns (d: string)
    modifies st`deviceId, st`sessions
    ensures d != "" && st.deviceId == Some(d)
    ensures HasDeviceId(old(st.deviceId)) ==> d == old(st.deviceId).value
    ensures !HasDeviceId(old(st.deviceId)) ==> d == "device_" + token
    ensures st.sessions == Touch(old(st.sessions), reg, d, now)
  {
    d := GenerateDeviceId(st, token);
    var sessions := st.sessions;
    if Find(sessions, OnOtherDevice(reg, d)).Some? {
      st.sessions := Filter(sessions, NotOnOtherDevice(reg, d));
    }
    match FindIndex(sessions, OnDevice(d)) {
      case Some(i) =>
        sessions := sessions[i := DeviceSession(reg, d, now)];
      case None =>
        sessions := sessions + [DeviceSession(reg, d, now)];
    }
    st.sessions := sessions;
  }

  /**
   * `createSession` as evidently intended: `reg`'s sessions on other
   * devices are removed before the device's session is touched.
   */
  method CreateSessionReplacing(st: LocalStore, reg: string, token: string, now: int) returns (d: string)
    modifies st`deviceId, st`sessions
    ensures d != "" && st.deviceId == Some(d)
    ensures HasDeviceId(old(st.deviceId)) ==> d == old(st.deviceId).value
    ensures !HasDeviceId(old(st.deviceId)) ==> d == "device_" + token
    ensures st.sessions == Touch(Filter(old(st.sessions), NotOnOtherDevice(reg, d)), reg, d, now)
  {
    d := GenerateDeviceId(st, token);
    var sessions := Filter(st.sessions, NotOnOtherDevice(reg, d));
    match FindIndex(sessions, OnDevice(d)) {
      case Some(i) =>
        sessions := sessions[i := DeviceSession(reg, d, now)];
      case None =>
        sessions := sessions + [DeviceSession(reg, d, now)];
    }
    st.sessions := sessions;
  }

  /**
   * `validateSession` on a stored device id and session list: false without
   * a device id or without a session of `reg`; otherwise whether the first
   * session of `reg` is on this device.
   */
  function SessionValid(deviceId: Option<string>, sessions: seq<DeviceSession>, reg: string): (ok: bool)
    ensures ok <==> HasDeviceId(deviceId)
                    && exists i :: 0 <= i < |sessions| && sessions[i].regNumber == reg
                                   && sessions[i].deviceId == deviceId.value
                                   && forall j :: 0 <= j < i ==> sessions[j].regNumber != reg
  {
    if !HasDeviceId(deviceId) then false
    else
      match FindIndex(sessions, SessionOf(reg))
      case None => false
      case Some(i) => sessions[i].deviceId == deviceId.value
  }

  /** `validateSession`: reads the stored device id and sessions. */
  method ValidateSession(st: LocalStore, reg: string) returns (ok: bool)
    ensures ok == SessionValid(st.deviceId, st.sessions, reg)
  {
    if !HasDeviceId(st.deviceId) {
      return false;
    }
    var session := Find(st.sessions, SessionOf(reg));
    if session.None? {
      return false;
    }
    FindIsAtFindIndex(st.sessions, SessionOf(reg));
    return session.value.deviceId == st.deviceId.value;
  }

  lemma FindIsAtFindIndex<T(!new)>(s: seq<T>, p: T -> bool)
    ensures Find(s, p).Some? <==> FindIndex(s, p).Some?
    ensures Find(s, p).Some? ==> Find(s, p).value == s[FindIndex(s, p).value]
  {
  }

  /**
   * With a session of the same number on another device listed first, a
   * login on this device does not pass validation afterwards: the session
   * on the other device survives `createSession`.
   */
  lemma CreateSessionKeepsOtherDevice()
    ensures var before := [DeviceSession("RA2411043010062", "device_a", 0)];
            var after := Touch(before, "RA2411043010062", "device_b", 1);
            && before[0] in after
            && !SessionValid(Some("device_b"), after, "RA2411043010062")
  {
    var before := [DeviceSession("RA2411043010062", "device_a", 0)];
    var after := Touch(before, "RA2411043010062", "device_b", 1);
    assert FindIndex(before, OnDevice("device_b")).None?;
    assert after == before + [DeviceSession("RA2411043010062", "device_b", 1)];
    assert FindIndex(after, SessionOf("RA2411043010062")) == Some(0);
  }

  /**
   * With the other devices' sessions removed first, a login always passes
   * validation on the device it was made on.
   */
  lemma CreateSessionReplacingValidates(sessions: seq<DeviceSession>, reg: string, d: string, now: int)
    requires d != ""
    ensures SessionValid(Some(d), Touch(Filter(sessions, NotOnOtherDevice(reg, d)), reg, d, now), reg)
  {
    var kept := Filter(sessions, NotOnOtherDevice(reg, d));
    var after := Touch(kept, reg, d, now);
    assert forall s :: s in kept && s.regNumber == reg ==> s.deviceId == d;
    var k :| 0 <= k < |after| && after[k] == DeviceSession(reg, d, now);
    assert FindIndex(after, SessionOf(reg)).Some?;
    var i := FindIndex(after, SessionOf(reg)).value;
    assert after[i] in kept || after[i] == DeviceSession(reg, d, now) by {
      match FindIndex(kept, OnDevice(d))
      case Some(m) =>
        if i != m {
          assert after[i] == kept[i];
        }
      case None =>
    }
  }

  /** `removeSession`: every session of `reg` removed, the others kept in order. */
  method RemoveSession(st: LocalStore, reg: string)
    modifies st`sessions
    ensures st.sessions == Filter(old(st.sessions), NotSessionOf(reg))
  {
    st.sessions := Filter(st.sessions, NotSessionOf(reg));
  }

  /** After `removeSession(reg)` no device validates `reg`, and other numbers' sessions are untouched. */
  lemma RemovedSessionInvalid(deviceId: Option<string>, sessions: seq<DeviceSession>, reg: string)
    ensures !SessionValid(deviceId, Filter(sessions, NotSessionOf(reg)), reg)
    ensures forall other :: other != reg ==>
              Filter(Filter(sessions, NotSessionOf(reg)), SessionOf(other)) == Filter(sessions, SessionOf(other))
  {
    var r := Filter(sessions, NotSessionOf(reg));
    assert forall i :: 0 <= i < |r| ==> r[i] in r;
    forall other | other != reg
      ensures Filter(r, SessionOf(other)) == Filter(sessions, SessionOf(other))
    {
      FilterOfFilter(sessions, NotSessionOf(reg), SessionOf(other));
    }
  }

  /** `s => now - s.timestamp < oneDayMs`. */
  function Unexpired(now: int): DeviceSession -> bool {
    (s: DeviceSession) => now - s.timestamp < OneDayMs
  }

  /** `cleanupSessions`: keeps the sessions written less than 24 hours before `now`. */
  method CleanupSessions(st: LocalStore, now: int)
    modifies st`sessions
    ensures st.sessions == Filter(old(st.sessions), Unexpired(now))
    ensures forall s :: s in st.sessions <==> s in old(st.sessions) && now - s.timestamp < OneDayMs
  {
    st.sessions := Filter(st.sessions, Unexpired(now));
  }

  /** Cleaning up twice at the same time is cleaning up once, and a session written at `now` survives. */
  lemma CleanupIdempotent(sessions: seq<DeviceSession>, now: int)
    ensures Filter(Filter(sessions, Unexpired(now)), Unexpired(now)) == Filter(sessions, Unexpired(now))
    ensures forall s :: s in sessions && s.timestamp == now ==> s in Filter(sessions, Unexpired(now))
  {
    FilterOfFilter(sessions, Unexpired(now), Unexpired(now));
  }
}
