/** pkg/cluster/history.go: the rolling telemetry window over a sliding Go slice. */
module History {
  import opened GoSlice

  datatype TelemetryPoint = TelemetryPoint(timestamp: int, cpu: real, ramPct: real)

  /** The last n points of a log, or all of it while it is shorter. */
  function LastOf(log: seq<TelemetryPoint>, n: nat): seq<TelemetryPoint> {
    if |log| <= n then log else log[|log| - n..]
  }

  /** A suffix of the log, of n points as soon as there are that many. */
  lemma LastOfMeaning(log: seq<TelemetryPoint>, n: nat)
    ensures |LastOf(log, n)| == if |log| < n then |log| else n
    ensures log == log[..|log| - |LastOf(log, n)|] + LastOf(log, n)
  {
  }

  class HistoryBuffer {
    const capacity: int
    var points: Slice<TelemetryPoint>
    /** Every point ever added. */
    ghost var Log: seq<TelemetryPoint>

    ghost predicate Valid()
      reads this, points.items
    {
      && capacity > 0
      && points.Valid()
      && points.Elems() == LastOf(Log, capacity)
    }

    constructor (capacity: int)
      ensures Valid() && Log == [] && fresh(points.items)
      ensures this.capacity == if capacity <= 0 then 30 else capacity
    {
      var size := capacity;
      if size <= 0 {
        size := 30;
      }
      this.capacity := size;
      Log := [];
      var empty := Make<TelemetryPoint>(size);
      points := empty;
    }

    /** `spare` is how far the runtime over-allocates when append has to move the points. */
    method Add(cpu: real, ramPct: real, now: int, spare: nat)
      requires Valid()
      modifies this, points.items
      ensures Valid() && Log == old(Log) + [TelemetryPoint(now, cpu, ramPct)]
      ensures points.items == old(points.items) || fresh(points.items)
    {
      var point := TelemetryPoint(now, cpu, ramPct);
      ghost var window := points.Elems();
      if points.len >= capacity {
        assert points.Tail().Elems() == window[1..];
        points := Append(points.Tail(), point, spare);
      } else {
        points := Append(points, point, spare);
      }
      Log := Log + [point];
    }

    /** A fresh copy: the last min(n, capacity) points, oldest first. */
    method GetPoints() returns (res: array<TelemetryPoint>)
      requires Valid()
      ensures fresh(res) && res[..] == LastOf(Log, capacity)
    {
      res := Copy(points);
    }
  }

  /** One tick: add a point, then read the window. */
  method Record(buffer: HistoryBuffer, p: TelemetryPoint, spare: nat) returns (list: array<TelemetryPoint>)
    requires buffer.Valid()
    modifies buffer, buffer.points.items
    ensures buffer.Valid() && buffer.Log == old(buffer.Log) + [p]
    ensures buffer.points.items == old(buffer.points.items) || fresh(buffer.points.items)
    ensures fresh(list) && list != buffer.points.items && list[..] == LastOf(buffer.Log, buffer.capacity)
  {
    buffer.Add(p.cpu, p.ramPct, p.timestamp, spare);
    list := buffer.GetPoints();
  }

  /** The window after any sequence of additions, and the lists handed out on the way, which stay
      what they were although the window slides along (and off) the shared array. */
  method Window(capacity: int, added: seq<TelemetryPoint>, spare: nat -> nat)
    returns (lists: seq<array<TelemetryPoint>>)
    ensures |lists| == |added| + 1
    ensures
      var size: nat := if capacity <= 0 then 30 else capacity;
      forall k :: 0 <= k <= |added| ==> lists[k][..] == LastOf(added[..k], size)
  {
    var buffer := new HistoryBuffer(capacity);
    var list := buffer.GetPoints();
    lists := [list];
    for i := 0 to |added|
      invariant buffer.Valid() && buffer.Log == added[..i] && |lists| == i + 1
      invariant buffer.capacity == if capacity <= 0 then 30 else capacity
      invariant fresh(buffer) && fresh(buffer.points.items)
      invariant forall k :: 0 <= k <= i ==> lists[k] != buffer.points.items
      invariant forall k :: 0 <= k <= i ==> lists[k][..] == LastOf(added[..k], buffer.capacity)
    {
      var p := added[i];
      assert added[..i + 1] == added[..i] + [p];
      list := Record(buffer, p, spare(i));
      lists := lists + [list];
    }
  }
}
