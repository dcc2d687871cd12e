/** The sectors that a transaction logs: log_write lists each of them once, in the order of the first call. */
module LogSectors {
  const LOGSIZE := 10

  function Absorb(secs: seq<nat>, s: nat): seq<nat> {
    if s in secs then secs else secs + [s]
  }

  /** The sectors in the log header after a row of calls of log_write. */
  function LoggedSectors(log: seq<nat>): seq<nat> {
    if log == [] then [] else Absorb(LoggedSectors(log[..|log| - 1]), log[|log| - 1])
  }

  function SectorSet(log: seq<nat>): set<nat> {
    set s | s in log
  }

  /** Absorption: the header is as long as the number of distinct sectors. */
  lemma {:induction false} DistinctLogged(log: seq<nat>)
    ensures |LoggedSectors(log)| == |SectorSet(log)|
    ensures forall s :: s in LoggedSectors(log) <==> s in log
    decreases |log|
  {
    if log != [] {
      var rest, s := log[..|log| - 1], log[|log| - 1];
      DistinctLogged(rest);
      assert log == rest + [s];
      assert SectorSet(log) == SectorSet(rest) + {s};
      if s in rest { assert SectorSet(log) == SectorSet(rest); }
    }
  }

  lemma {:induction false} SmallerSet(a: set<nat>, b: set<nat>)
    requires a <= b
    ensures |a| <= |b|
  {
    if x :| x in a {
      SmallerSet(a - {x}, b - {x});
    }
  }

  /** At no point of a transaction are more sectors in the header than the transaction can touch. */
  lemma HeaderBound(log: seq<nat>, all: set<nat>, k: nat)
    requires SectorSet(log) <= all && k <= |log|
    ensures |LoggedSectors(log[..k])| <= |all|
  {
    DistinctLogged(log[..k]);
    SmallerSet(SectorSet(log[..k]), all);
  }
}
