/** How often clients report: the controller scales the interval with the fleet, the agent clamps what it is told, and
    the metrics store spreads each report over that many seconds. Durations are whole nanoseconds, as in Go. */
module ReportInterval {
  import M = MetricsSpec

  const SECOND := 1_000_000_000
  const SHORTEST := SECOND
  const LONGEST := 60 * SECOND
  const TARGET_HZ := 100

  /** Duration.Round to whole seconds, halves up, for durations that are not negative. */
  function RoundToSecond(d: nat): nat {
    var r := d % SECOND;
    if r + r < SECOND then d - r else d + SECOND - r
  }

  /** The interval in whole seconds: a hundredth of the fleet, rounded, between one and sixty. */
  function Seconds(clients: int): int {
    var s := (clients + 50) / 100;
    if s < 1 then 1 else if s > 60 then 60 else s
  }

  lemma Hundredths(n: nat)
    ensures n * 10_000_000 % SECOND == n % 100 * 10_000_000
    ensures RoundToSecond(n * 10_000_000) == (n + 50) / 100 * SECOND
  {
    var q, r := n / 100, n % 100;
    assert n * 10_000_000 == q * SECOND + r * 10_000_000;
    assert 0 <= r * 10_000_000 < SECOND;
  }

  /** MetricsIntervalForClients. */
  method MetricsIntervalForClients(clients: int) returns (d: nat)
    ensures d == Seconds(clients) * SECOND
  {
    var n := clients;
    if n < 1 {
      n := 1;
    }
    d := n * SECOND / TARGET_HZ;
    assert d == n * 10_000_000;
    if d < SHORTEST {
      d := SHORTEST;
    }
    if d > LONGEST {
      d := LONGEST;
    }
    if d < SECOND {
      assert false;
    }
    Hundredths(d / 10_000_000);
    d := RoundToSecond(d);
  }

  /** The fleet reports about a hundred times a second: fewer than 150 times up to six thousand clients, and the
      interval is within half a second of a hundredth of the fleet from a hundred clients on. */
  lemma ReportRate(n: int)
    ensures 1 <= Seconds(n) <= 60
    ensures 1 <= n <= 6000 ==> n < 150 * Seconds(n)
    ensures 100 <= n <= 6000 ==> n - 50 < 100 * Seconds(n) <= n + 50
    ensures n > 6000 ==> 100 * Seconds(n) < n
  {}

  lemma MoreClientsReportLess(m: int, n: int)
    requires m <= n
    ensures Seconds(m) <= Seconds(n)
  {}

  class Agent {
    var metricsInterval: int

    constructor ()
      ensures metricsInterval == SECOND
    {
      metricsInterval := SECOND;
    }

    /** setMetricsInterval, for seconds as announced by the controller. */
    method SetMetricsInterval(sec: real)
      modifies this
      ensures SHORTEST <= metricsInterval <= LONGEST
      ensures sec <= 1.0 ==> metricsInterval == SHORTEST
      ensures 1.0 <= sec <= 60.0 ==> metricsInterval == (sec * SECOND as real).Floor
      ensures sec >= 60.0 ==> metricsInterval == LONGEST
    {
      var d := SHORTEST;
      if sec > 0.0 {
        d := (sec * SECOND as real).Floor;
        if d < SHORTEST {
          d := SHORTEST;
        }
        if d > LONGEST {
          d := LONGEST;
        }
      }
      metricsInterval := d;
    }

    /** The agent's clamp changes nothing the controller announces, and the store spreads its reports over exactly that
        many seconds. */
    method Follow(clients: int) returns (windows: nat)
      modifies this
      ensures metricsInterval == Seconds(clients) * SECOND
      ensures windows == Seconds(clients)
    {
      var d := MetricsIntervalForClients(clients);
      var sec := d as real / SECOND as real;
      SetMetricsInterval(sec);
      windows := M.Windows(metricsInterval as real / SECOND as real);
    }
  }
}
