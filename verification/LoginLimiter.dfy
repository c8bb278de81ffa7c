/** The per-key login limiter (backend/src/model/database.ts, backend/src/security/auth.ts). */
module LoginLimiter {

  /** Fifteen minutes, in milliseconds. */
  const WINDOW: int := 900_000

  datatype Row = Row(windowStart: int, failures: nat, blockedUntil: int)

  function BlockedUntil(rows: map<string, Row>, key: string): int
  {
    if key in rows then rows[key].blockedUntil else 0
  }

  predicate Blocked(rows: map<string, Row>, key: string, now: int) { BlockedUntil(rows, key) > now }

  function AfterFailure(rows: map<string, Row>, key: string, now: int): Row
  {
    var restart := key !in rows || now - rows[key].windowStart > WINDOW;
    var failures := if restart then 1 else rows[key].failures + 1;
    Row(if restart then now else rows[key].windowStart, failures, if failures >= 5 then now + WINDOW else 0)
  }

  class LoginAttempts {
    var rows: map<string, Row>

    /** loginRate: the wait is the least number of whole seconds after which the key is free. */
    method LoginRate(key: string, now: int) returns (blocked: bool, retryAfterSeconds: nat)
      ensures blocked == Blocked(rows, key, now)
      ensures now + 1000 * retryAfterSeconds >= BlockedUntil(rows, key)
      ensures retryAfterSeconds > 0 ==> now + 1000 * (retryAfterSeconds - 1) < BlockedUntil(rows, key)
    {
      var blockedUntil := BlockedUntil(rows, key);
      blocked := blockedUntil > now;
      retryAfterSeconds := if blocked then (blockedUntil - now + 999) / 1000 else 0;
    }

    method RecordLoginFailure(key: string, now: int)
      modifies this
      ensures rows == old(rows)[key := AfterFailure(old(rows), key, now)]
    {
      var failures, windowStart := 1, now;
      if key in rows && now - rows[key].windowStart <= WINDOW {
        failures, windowStart := rows[key].failures + 1, rows[key].windowStart;
      }
      var blockedUntil := if failures >= 5 then now + WINDOW else 0;
      rows := rows[key := Row(windowStart, failures, blockedUntil)];
    }

    method ClearLoginFailures(key: string)
      modifies this
      ensures rows == old(rows) - {key}
    {
      rows := rows - {key};
    }

    /** One login request: refused while blocked, otherwise judged and recorded. */
    method Attempt(login: Login) returns (outcome: Outcome)
      modifies this
      ensures outcome == Judge(old(rows), login)
      ensures rows == After(old(rows), login)
    {
      var blocked, _ := LoginRate(login.key, login.now);
      if blocked {
        return Refused;
      }
      if login.valid {
        ClearLoginFailures(login.key);
        outcome := Accepted;
      } else {
        RecordLoginFailure(login.key, login.now);
        outcome := Failed;
      }
    }
  }

  // ---------------------------------------------------------------- runs

  datatype Login = Login(key: string, now: int, valid: bool)

  datatype Outcome = Refused | Failed | Accepted

  function Judge(rows: map<string, Row>, login: Login): Outcome
  {
    if Blocked(rows, login.key, login.now) then Refused else if login.valid then Accepted else Failed
  }

  function After(rows: map<string, Row>, login: Login): map<string, Row>
  {
    match Judge(rows, login)
    case Refused => rows
    case Accepted => rows - {login.key}
    case Failed => rows[login.key := AfterFailure(rows, login.key, login.now)]
  }

  function Table(logins: seq<Login>): map<string, Row>
  {
    if logins == [] then map[] else After(Table(logins[..|logins| - 1]), logins[|logins| - 1])
  }

  /** When this key's failures were recorded, since its last successful login. */
  function FailureTimes(logins: seq<Login>, key: string): seq<int>
  {
    if logins == [] then []
    else
      var before, login := logins[..|logins| - 1], logins[|logins| - 1];
      if login.key != key then FailureTimes(before, key)
      else
        match Judge(Table(before), login)
        case Refused => FailureTimes(before, key)
        case Accepted => []
        case Failed => FailureTimes(before, key) + [login.now]
  }

  /** The clock starts at or after zero and never goes back. */
  ghost predicate ClockForward(logins: seq<Login>)
  {
    && (forall i | 0 <= i < |logins| :: logins[i].now >= 0)
    && (forall i, j | 0 <= i <= j < |logins| :: logins[i].now <= logins[j].now)
  }

  /** How many of these times lie in the half-open window that starts at `from`. */
  function CountIn(times: seq<int>, from: int): nat
  {
    if times == [] then 0
    else
      var last := times[|times| - 1];
      CountIn(times[..|times| - 1], from) + (if from <= last < from + WINDOW then 1 else 0)
  }

  // ---------------------------------------------------------------- the bound

  ghost predicate Ascending(times: seq<int>)
  {
    forall i, j | 0 <= i <= j < |times| :: times[i] <= times[j]
  }

  ghost predicate EightApart(times: seq<int>)
  {
    forall i: nat | i + 8 < |times| :: times[i + 8] - times[i] >= WINDOW
  }

  /** A row describes the last `failures` times, and its window starts well after the four before them. */
  ghost predicate RowMatches(row: Row, times: seq<int>)
  {
    var start := |times| - row.failures;
    && 1 <= row.failures <= |times|
    && row.windowStart == times[start]
    && (start >= 4 ==> times[start] - times[start - 4] >= WINDOW)
    && (row.failures >= 5 ==> row.blockedUntil == times[|times| - 1] + WINDOW)
    && (row.failures < 5 ==> row.blockedUntil == 0)
  }

  ghost predicate Tallies(rows: map<string, Row>, times: seq<int>, key: string)
  {
    && Ascending(times) && EightApart(times)
    && (key in rows ==> RowMatches(rows[key], times))
    && (key !in rows ==> times == [])
  }

  lemma AppendFailure(rows: map<string, Row>, times: seq<int>, key: string, now: int)
    requires Tallies(rows, times, key) && !Blocked(rows, key, now)
    requires forall i | 0 <= i < |times| :: times[i] <= now
    ensures Tallies(rows[key := AfterFailure(rows, key, now)], times + [now], key)
  {
    var longer := times + [now];
    if key in rows {
      var n, row := |times|, rows[key];
      var start := n - row.failures;
      assert forall i: nat | i < n :: longer[i] == times[i];
      if n >= 8 {
        if row.failures < 5 && now - row.windowStart <= WINDOW {
          assert times[n - 8] <= times[start - 4];
        } else if row.failures < 5 {
          assert times[n - 8] <= times[start];
        }
        assert longer[n] - longer[n - 8] >= WINDOW;
      }
    }
  }

  lemma {:induction false} TimesBefore(logins: seq<Login>, key: string, now: int)
    requires forall i | 0 <= i < |logins| :: logins[i].now <= now
    ensures forall i | 0 <= i < |FailureTimes(logins, key)| :: FailureTimes(logins, key)[i] <= now
  {
    if logins != [] {
      TimesBefore(logins[..|logins| - 1], key, now);
    }
  }

  lemma {:induction false} RunTracks(logins: seq<Login>, key: string)
    requires ClockForward(logins)
    ensures Tallies(Table(logins), FailureTimes(logins, key), key)
  {
    if logins != [] {
      var k := |logins| - 1;
      RunTracks(logins[..k], key);
      TimesBefore(logins[..k], key, logins[k].now);
      var rows, times, login := Table(logins[..k]), FailureTimes(logins[..k], key), logins[k];
      if login.key == key && Judge(rows, login) == Failed {
        AppendFailure(rows, times, key, login.now);
      }
    }
  }

  /** Entries before position `a` lie before the window, so at most the rest is inside. */
  lemma {:induction false} CountAtMost(times: seq<int>, from: int, a: nat)
    requires a <= |times| && forall i: nat | i < a :: times[i] < from
    ensures CountIn(times, from) <= |times| - a
  {
    if times != [] {
      var k := |times| - 1;
      CountAtMost(times[..k], from, if a <= k then a else k);
    }
  }

  lemma {:induction false} SpacedCount(times: seq<int>, from: int)
    requires Ascending(times) && EightApart(times)
    ensures CountIn(times, from) <= 8
  {
    if |times| > 8 {
      var k := |times| - 1;
      SpacedCount(times[..k], from);
      if from <= times[k] < from + WINDOW {
        forall i: nat | i <= k - 8 ensures times[i] < from {
          assert times[i] <= times[k - 8];
          assert times[(k - 8) + 8] - times[k - 8] >= WINDOW;
        }
        CountAtMost(times, from, k - 7);
      }
    } else {
      CountAtMost(times, from, 0);
    }
  }

  /** No half-open fifteen-minute window holds more than eight recorded failures of one key. */
  lemma AtMostEightFailures(logins: seq<Login>, key: string, from: int)
    requires ClockForward(logins)
    ensures CountIn(FailureTimes(logins, key), from) <= 8
  {
    RunTracks(logins, key);
    SpacedCount(FailureTimes(logins, key), from);
  }

  function Repeat(key: string, now: int, n: nat): seq<Login>
  {
    if n == 0 then [] else Repeat(key, now, n - 1) + [Login(key, now, false)]
  }

  /** After these logins the key's row and recorded failures are as given. */
  ghost predicate Holds(logins: seq<Login>, key: string, row: Row, times: seq<int>)
  {
    key in Table(logins) && Table(logins)[key] == row && FailureTimes(logins, key) == times
  }

  lemma OneMore(logins: seq<Login>, key: string, now: int)
    requires !Blocked(Table(logins), key, now)
    ensures Holds(logins + [Login(key, now, false)], key, AfterFailure(Table(logins), key, now),
                  FailureTimes(logins, key) + [now])
  {
    var all := logins + [Login(key, now, false)];
    assert all[..|all| - 1] == logins;
  }

  function Same(now: int, n: nat): (times: seq<int>)
    ensures |times| == n && forall i: nat | i < n :: times[i] == now
  {
    if n == 0 then [] else Same(now, n - 1) + [now]
  }

  /** `n` failures at once, while fewer than five have been counted in the open window. */
  lemma {:induction false} BurstRecorded(logins: seq<Login>, key: string, now: int, n: nat, row: Row, times: seq<int>)
    requires Holds(logins, key, row, times)
    requires n >= 1 && now >= 0 && now - row.windowStart <= WINDOW
    requires row.blockedUntil == 0 && row.failures + n <= 5
    ensures Holds(logins + Repeat(key, now, n), key,
                  Row(row.windowStart, row.failures + n, if row.failures + n == 5 then now + WINDOW else 0),
                  times + Same(now, n))
  {
    var before := if n == 1 then logins else logins + Repeat(key, now, n - 1);
    if n > 1 {
      BurstRecorded(logins, key, now, n - 1, row, times);
    }
    OneMore(before, key, now);
    assert logins + Repeat(key, now, n) == before + [Login(key, now, false)];
    assert times + Same(now, n) == FailureTimes(before, key) + [now];
  }

  lemma {:induction false} CountAll(times: seq<int>, from: int)
    requires forall i | 0 <= i < |times| :: from <= times[i] < from + WINDOW
    ensures CountIn(times, from) == |times|
  {
    if times != [] {
      CountAll(times[..|times| - 1], from);
    }
  }

  lemma {:induction false} CountAppend(a: seq<int>, b: seq<int>, from: int)
    ensures CountIn(a + b, from) == CountIn(a, from) + CountIn(b, from)
  {
    if b == [] {
      assert a + b == a;
    } else {
      var k := |b| - 1;
      assert (a + b)[..|a + b| - 1] == a + b[..k];
      CountAppend(a, b[..k], from);
    }
  }

  /** One failure, three more as its window ends, and five in the next: eight in one window. */
  function WorstCase(key: string): seq<Login>
  {
    [Login(key, 0, false)] + Repeat(key, WINDOW, 3) + [Login(key, WINDOW + 1, false)] + Repeat(key, WINDOW + 1, 4)
  }

  lemma WorstCaseTimes(key: string)
    ensures FailureTimes(WorstCase(key), key) == [0] + Same(WINDOW, 3) + [WINDOW + 1] + Same(WINDOW + 1, 4)
  {
    var first := [Login(key, 0, false)];
    assert [] + first == first;
    OneMore([], key, 0);
    BurstRecorded(first, key, WINDOW, 3, Row(0, 1, 0), [0]);
    var early := first + Repeat(key, WINDOW, 3);
    OneMore(early, key, WINDOW + 1);
    var second := early + [Login(key, WINDOW + 1, false)];
    BurstRecorded(second, key, WINDOW + 1, 4, Row(WINDOW + 1, 1, 0), [0] + Same(WINDOW, 3) + [WINDOW + 1]);
  }

  /** The bound is tight. */
  lemma EightIsReached(key: string)
    ensures ClockForward(WorstCase(key)) && CountIn(FailureTimes(WorstCase(key), key), WINDOW) == 8
  {
    WorstCaseTimes(key);
    var times := Same(WINDOW, 3) + [WINDOW + 1] + Same(WINDOW + 1, 4);
    assert FailureTimes(WorstCase(key), key) == [0] + times;
    CountAll(times, WINDOW);
    CountAppend([0], times, WINDOW);
    WorstCaseClock(key);
  }

  lemma {:induction false} RepeatAt(key: string, now: int, n: nat)
    ensures |Repeat(key, now, n)| == n
    ensures forall i | 0 <= i < n :: Repeat(key, now, n)[i].now == now
  {
    if n > 0 {
      RepeatAt(key, now, n - 1);
    }
  }

  lemma WorstCaseClock(key: string)
    ensures ClockForward(WorstCase(key))
  {
    RepeatAt(key, WINDOW, 3);
    RepeatAt(key, WINDOW + 1, 4);
  }

  // ---------------------------------------------------------------- the lock

  /** What each login of a run was answered. */
  function Answers(logins: seq<Login>): (r: seq<Outcome>)
    ensures |r| == |logins|
  {
    if logins == [] then []
    else
      var before := logins[..|logins| - 1];
      Answers(before) + [Judge(Table(before), logins[|logins| - 1])]
  }

  /** Login k is the last recorded failure of this key: no later one failed or was accepted. */
  ghost predicate LastFailure(logins: seq<Login>, answers: seq<Outcome>, key: string, k: nat)
    requires |answers| == |logins|
  {
    && k < |logins| && logins[k].key == key && answers[k] == Failed
    && forall j | k < j < |logins| && logins[j].key == key :: answers[j] == Refused
  }

  /** The last recorded failure of this key was less than fifteen minutes ago. */
  ghost predicate FailedLately(logins: seq<Login>, key: string, now: int)
  {
    exists k: nat :: LastFailure(logins, Answers(logins), key, k) && now < logins[k].now + 900_000
  }

  /** The row counts five failures or more, the last less than fifteen minutes ago. */
  ghost predicate LockedOut(logins: seq<Login>, key: string, now: int)
  {
    key in Table(logins) && Table(logins)[key].failures >= 5 && FailedLately(logins, key, now)
  }

  lemma AnswersSnoc(logins: seq<Login>, login: Login)
    ensures Answers(logins + [login]) == Answers(logins) + [Judge(Table(logins), login)]
  {
    assert (logins + [login])[..|logins|] == logins;
  }

  lemma LastFailureNew(before: seq<Login>, answers: seq<Outcome>, login: Login)
    requires |answers| == |before|
    ensures LastFailure(before + [login], answers + [Failed], login.key, |before|)
  {
  }

  lemma LastFailureKept(before: seq<Login>, answers: seq<Outcome>, login: Login, a: Outcome, key: string, k: nat)
    requires |answers| == |before| && LastFailure(before, answers, key, k) && (login.key == key ==> a == Refused)
    ensures LastFailure(before + [login], answers + [a], key, k)
  {
  }

  ghost predicate EndsAt(times: seq<int>, time: int) { times != [] && times[|times| - 1] == time }

  lemma TimesSnoc(before: seq<Login>, login: Login, key: string)
    ensures FailureTimes(before + [login], key)
         == if login.key != key || Judge(Table(before), login) == Refused then FailureTimes(before, key)
            else if login.valid then [] else FailureTimes(before, key) + [login.now]
  {
    assert (before + [login])[..|before|] == before;
  }

  /** The last recorded failure is where the recorded times end. */
  lemma {:induction false} LastFailureIsLast(logins: seq<Login>, key: string) returns (k: nat)
    requires FailureTimes(logins, key) != []
    ensures LastFailure(logins, Answers(logins), key, k) && EndsAt(FailureTimes(logins, key), logins[k].now)
  {
    var n := |logins| - 1;
    var before, login := logins[..n], logins[n];
    assert logins == before + [login];
    AnswersSnoc(before, login);
    TimesSnoc(before, login, key);
    if login.key == key && Judge(Table(before), login) == Failed {
      LastFailureNew(before, Answers(before), login);
      k := n;
    } else {
      k := LastFailureIsLast(before, key);
      LastFailureKept(before, Answers(before), login, Judge(Table(before), login), key, k);
    }
  }

  lemma FailedLatelyIff(logins: seq<Login>, key: string, now: int)
    requires FailureTimes(logins, key) != []
    ensures FailedLately(logins, key, now)
       <==> now < FailureTimes(logins, key)[|FailureTimes(logins, key)| - 1] + 900_000
  {
    var k := LastFailureIsLast(logins, key);
    if FailedLately(logins, key, now) {
      var j: nat :| LastFailure(logins, Answers(logins), key, j) && now < logins[j].now + 900_000;
      assert j == k;
    }
  }

  lemma RowBlocks(rows: map<string, Row>, times: seq<int>, key: string, now: int)
    requires Tallies(rows, times, key) && now >= 0
    ensures key in rows ==> times != []
    ensures Blocked(rows, key, now)
       <==> key in rows && rows[key].failures >= 5 && now < times[|times| - 1] + 900_000
  {
  }

  lemma BlockedIffLockedOut(logins: seq<Login>, key: string, now: int)
    requires ClockForward(logins) && now >= 0
    ensures Blocked(Table(logins), key, now) <==> LockedOut(logins, key, now)
  {
    RunTracks(logins, key);
    RowBlocks(Table(logins), FailureTimes(logins, key), key, now);
    if key in Table(logins) {
      FailedLatelyIff(logins, key, now);
    }
  }

  /**
   * In every run with a forward clock, a login of a key that is locked out is refused, right or wrong, and
   * changes nothing; any other is accepted, and its row cleared, if and only if it is valid, and else fails.
   */
  lemma {:induction false} LockHolds(logins: seq<Login>, i: nat)
    requires ClockForward(logins) && i < |logins|
    ensures var login, before := logins[i], logins[..i];
      if LockedOut(before, login.key, login.now) then
        Answers(logins)[i] == Refused && Table(logins[..i + 1]) == Table(before)
      else if login.valid then
        Answers(logins)[i] == Accepted && Table(logins[..i + 1]) == Table(before) - {login.key}
      else
        Answers(logins)[i] == Failed && login.key in Table(logins[..i + 1])
  {
    var login, before := logins[i], logins[..i];
    BlockedIffLockedOut(before, login.key, login.now);
    AnswerOf(logins, i);
    TableSnoc(before, login);
    assert logins[..i + 1] == before + [login];
  }

  lemma TableSnoc(before: seq<Login>, login: Login)
    ensures Table(before + [login]) == After(Table(before), login)
  {
    assert (before + [login])[..|before|] == before;
  }

  lemma {:induction false} AnswerOf(logins: seq<Login>, i: nat)
    requires i < |logins|
    ensures Answers(logins)[i] == Judge(Table(logins[..i]), logins[i])
  {
    var n := |logins| - 1;
    if i < n {
      AnswerOf(logins[..n], i);
      assert logins[..n][..i] == logins[..i];
    }
  }
}
