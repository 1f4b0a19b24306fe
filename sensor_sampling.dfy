/**
 * The sampling loop of sensor_sampling_thread: each pass fetches one
 * accelerometer/magnetometer reading, stores its six axes in the shared
 * snapshot variables and appends each axis to its 84-entry plot buffer,
 * dropping the oldest entry.  A failed fetch ends the thread before anything
 * shared is written.
 *
 * The sensor driver is replaced by the sequence of fetch outcomes it
 * produces; float values are reals, copied and never computed with.
 */
module SensorSampling {

  /** Entries per plot buffer: one per display column. */
  const BufferLength: int := 84

  /** The six axes the thread samples, in the source's order. */
  datatype Axis = AccelX | AccelY | AccelZ | MagnX | MagnY | MagnZ

  /** One value per axis. */
  datatype Axes<T> = Axes(ax: T, ay: T, az: T, mx: T, my: T, mz: T)

  /** One reading, already converted from the driver's fixed-point values. */
  type Reading = Axes<real>

  /** The outcome of sensor_sample_fetch with the channel reads that follow it. */
  datatype Fetch = Failed | Fetched(reading: Reading)

  function Component<T>(r: Axes<T>, a: Axis): T
  {
    match a
    case AccelX => r.ax
    case AccelY => r.ay
    case AccelZ => r.az
    case MagnX => r.mx
    case MagnY => r.my
    case MagnZ => r.mz
  }

  // ---------------------------------------------------------------- buffers as values

  /** A buffer after one shift-left-and-append of v. */
  function Pushed(buf: seq<real>, v: real): (r: seq<real>)
    requires |buf| >= 1
    ensures |r| == |buf|
  {
    buf[1..] + [v]
  }

  /** One push keeps the length, moves every entry one place toward the front and puts v last. */
  lemma PushedShifts(buf: seq<real>, v: real)
    requires |buf| >= 1
    ensures var r := Pushed(buf, v);
      && |r| == |buf| && r[|buf| - 1] == v
      && forall i :: 0 <= i < |buf| - 1 ==> r[i] == buf[i + 1]
  {
  }

  /** A buffer after appending vs one value at a time. */
  function PushAll(buf: seq<real>, vs: seq<real>): (r: seq<real>)
    requires |buf| >= 1
    ensures |r| == |buf|
    decreases |vs|
  {
    if vs == [] then buf else Pushed(PushAll(buf, vs[..|vs| - 1]), vs[|vs| - 1])
  }

  /**
   * A buffer is a sliding window: after appending vs it holds the last |buf|
   * values of buf followed by vs.
   */
  lemma {:induction false} PushAllWindow(buf: seq<real>, vs: seq<real>)
    requires |buf| >= 1
    ensures PushAll(buf, vs) == (buf + vs)[|vs|..]
    decreases |vs|
  {
    if vs == [] {
      assert buf + vs == buf;
    } else {
      var init, v := vs[..|vs| - 1], vs[|vs| - 1];
      PushAllWindow(buf, init);
      assert vs == init + [v];
      assert buf + vs == (buf + init) + [v];
      assert (buf + init)[|init|..][1..] == (buf + init)[|vs|..];
    }
  }

  /**
   * After N appends to a buffer of 84 entries, the last min(N, 84) entries
   * are the last min(N, 84) values appended, in order, and the entries before
   * them are the newest of the old contents.
   */
  lemma LastReadings(buf: seq<real>, vs: seq<real>)
    requires |buf| == BufferLength
    ensures var r := PushAll(buf, vs);
      && (|vs| <= BufferLength ==> r == buf[|vs|..] + vs)
      && (|vs| >= BufferLength ==> r == vs[|vs| - BufferLength..])
  {
    PushAllWindow(buf, vs);
    if |vs| <= BufferLength {
      assert (buf + vs)[|vs|..] == buf[|vs|..] + vs;
    } else {
      assert (buf + vs)[|vs|..] == vs[|vs| - BufferLength..];
    }
  }

  /** Every fetch of fs succeeded. */
  predicate AllFetched(fs: seq<Fetch>)
  {
    forall j :: 0 <= j < |fs| ==> fs[j].Fetched?
  }

  /** The readings the successful fetches of fs deliver, in order. */
  function Readings(fs: seq<Fetch>): (rs: seq<Reading>)
    decreases |fs|
  {
    if fs == [] then []
    else
      var last := fs[|fs| - 1];
      Readings(fs[..|fs| - 1]) + if last.Fetched? then [last.reading] else []
  }

  /** A run of successful fetches delivers one reading per fetch, in order; a failed fetch delivers none. */
  lemma {:induction false} ReadingsOfRun(fs: seq<Fetch>)
    ensures AllFetched(fs) ==> |Readings(fs)| == |fs| && forall j :: 0 <= j < |fs| ==> Readings(fs)[j] == fs[j].reading
    ensures fs != [] && fs[|fs| - 1].Failed? ==> Readings(fs) == Readings(fs[..|fs| - 1])
    decreases |fs|
  {
    if fs != [] {
      var init := fs[..|fs| - 1];
      ReadingsOfRun(init);
      if AllFetched(fs) {
        assert AllFetched(init) by {
          forall j | 0 <= j < |init| ensures init[j].Fetched? {
            assert init[j] == fs[j];
          }
        }
      }
    }
  }

  /** One axis of a sequence of readings. */
  function Values(rs: seq<Reading>, a: Axis): (vs: seq<real>)
    ensures |vs| == |rs| && forall j :: 0 <= j < |rs| ==> vs[j] == Component(rs[j], a)
    decreases |rs|
  {
    if rs == [] then [] else Values(rs[..|rs| - 1], a) + [Component(rs[|rs| - 1], a)]
  }

  /** Every buffer holds 84 entries. */
  predicate Full(b: Axes<seq<real>>)
  {
    && |b.ax| == BufferLength && |b.ay| == BufferLength && |b.az| == BufferLength
    && |b.mx| == BufferLength && |b.my| == BufferLength && |b.mz| == BufferLength
  }

  /** All six buffers after one pass: each shifted, with its own axis of r appended. */
  function PushReading(b: Axes<seq<real>>, r: Reading): (n: Axes<seq<real>>)
    requires Full(b)
    ensures Full(n)
  {
    Axes(Pushed(b.ax, r.ax), Pushed(b.ay, r.ay), Pushed(b.az, r.az), Pushed(b.mx, r.mx), Pushed(b.my, r.my), Pushed(b.mz, r.mz))
  }

  /** All six buffers after a run of passes. */
  function PushReadings(b: Axes<seq<real>>, rs: seq<Reading>): (n: Axes<seq<real>>)
    requires Full(b)
    ensures Full(n)
    decreases |rs|
  {
    if rs == [] then b else PushReading(PushReadings(b, rs[..|rs| - 1]), rs[|rs| - 1])
  }

  /**
   * The buffers do not interact: after a run, each buffer is its old
   * contents with its own axis of the readings appended.
   */
  lemma {:induction false} PushReadingsSeparate(b: Axes<seq<real>>, rs: seq<Reading>, a: Axis)
    requires Full(b)
    ensures Component(PushReadings(b, rs), a) == PushAll(Component(b, a), Values(rs, a))
    decreases |rs|
  {
    if rs != [] {
      PushReadingsSeparate(b, rs[..|rs| - 1], a);
    }
  }

  /**
   * After a run of readings, each axis buffer holds that axis of the newest
   * 84 readings in order, or, after fewer than 84, the newest of its old
   * contents followed by all of them.
   */
  lemma RunLastReadings(b: Axes<seq<real>>, rs: seq<Reading>, a: Axis)
    requires Full(b)
    ensures var r, vs := Component(PushReadings(b, rs), a), Values(rs, a);
      && (|rs| >= BufferLength ==> r == vs[|rs| - BufferLength..])
      && (|rs| <= BufferLength ==> r == Component(b, a)[|rs|..] + vs)
  {
    PushReadingsSeparate(b, rs, a);
    assert |Component(b, a)| == BufferLength;
    LastReadings(Component(b, a), Values(rs, a));
  }

  // ---------------------------------------------------------------- the shared data

  /** The shared snapshot variables and plot buffers of shared_data.c. */
  class Sampler {
    var accelX: real
    var accelY: real
    var accelZ: real
    var magnX: real
    var magnY: real
    var magnZ: real
    const accelXData: array<real>
    const accelYData: array<real>
    const accelZData: array<real>
    const magnXData: array<real>
    const magnYData: array<real>
    const magnZData: array<real>

    /** The snapshot variables as one reading. */
    function Snapshot(): Reading
      reads this
    {
      Axes(accelX, accelY, accelZ, magnX, magnY, magnZ)
    }

    /** The contents of the six plot buffers. */
    function Contents(): Axes<seq<real>>
      reads accelXData, accelYData, accelZData, magnXData, magnYData, magnZData
    {
      Axes(accelXData[..], accelYData[..], accelZData[..], magnXData[..], magnYData[..], magnZData[..])
    }

    /** Six separate buffers of 84 entries each. */
    ghost predicate Valid()
    {
      && accelXData.Length == BufferLength && accelYData.Length == BufferLength
      && accelZData.Length == BufferLength && magnXData.Length == BufferLength
      && magnYData.Length == BufferLength && magnZData.Length == BufferLength
      && accelXData != accelYData && accelXData != accelZData && accelXData != magnXData
      && accelXData != magnYData && accelXData != magnZData
      && accelYData != accelZData && accelYData != magnXData && accelYData != magnYData && accelYData != magnZData
      && accelZData != magnXData && accelZData != magnYData && accelZData != magnZData
      && magnXData != magnYData && magnXData != magnZData
      && magnYData != magnZData
    }

    /** The statics as shared_data.c initialises them: every value 0. */
    constructor ()
      ensures Valid()
      ensures Snapshot() == Axes(0.0, 0.0, 0.0, 0.0, 0.0, 0.0)
      ensures forall a :: Component(Contents(), a) == seq(BufferLength, _ => 0.0)
    {
      accelX, accelY, accelZ := 0.0, 0.0, 0.0;
      magnX, magnY, magnZ := 0.0, 0.0, 0.0;
      accelXData := new real[BufferLength](_ => 0.0);
      accelYData := new real[BufferLength](_ => 0.0);
      accelZData := new real[BufferLength](_ => 0.0);
      magnXData := new real[BufferLength](_ => 0.0);
      magnYData := new real[BufferLength](_ => 0.0);
      magnZData := new real[BufferLength](_ => 0.0);
    }

    /**
     * One pass of the loop.  A failed fetch returns false at once and writes
     * nothing; otherwise the six snapshots take the reading and every buffer
     * receives its own axis, each a shift left with the reading at the end.
     */
    method Sample(fetch: Fetch) returns (ok: bool)
      requires Valid()
      modifies this, accelXData, accelYData, accelZData, magnXData, magnYData, magnZData
      ensures ok == fetch.Fetched?
      ensures !ok ==> Snapshot() == old(Snapshot()) && Contents() == old(Contents())
      ensures ok ==> Snapshot() == fetch.reading && Contents() == PushReading(old(Contents()), fetch.reading)
    {
      if fetch.Failed? {
        return false;
      }
      var r := fetch.reading;
      accelX := r.ax;
      accelY := r.ay;
      accelZ := r.az;
      magnX := r.mx;
      magnY := r.my;
      magnZ := r.mz;
      Shift(accelXData);
      Shift(accelYData);
      Shift(accelZData);
      Shift(magnXData);
      Shift(magnYData);
      Shift(magnZData);
      accelXData[BufferLength - 1] := accelX;
      accelYData[BufferLength - 1] := accelY;
      accelZData[BufferLength - 1] := accelZ;
      magnXData[BufferLength - 1] := magnX;
      magnYData[BufferLength - 1] := magnY;
      magnZData[BufferLength - 1] := magnZ;
      ShiftThenStore(old(accelXData[..]), r.ax);
      ShiftThenStore(old(accelYData[..]), r.ay);
      ShiftThenStore(old(accelZData[..]), r.az);
      ShiftThenStore(old(magnXData[..]), r.mx);
      ShiftThenStore(old(magnYData[..]), r.my);
      ShiftThenStore(old(magnZData[..]), r.mz);
      return true;
    }

    /**
     * The loop over a run of fetch outcomes: it stops at the first failure.
     * n passes succeed, and afterwards the buffers hold their old contents
     * with those n readings pushed, and the snapshots the last of them.
     */
    method Run(fetches: seq<Fetch>) returns (n: nat)
      requires Valid()
      modifies this, accelXData, accelYData, accelZData, magnXData, magnYData, magnZData
      ensures n <= |fetches|
      ensures forall j :: 0 <= j < n ==> fetches[j].Fetched?
      ensures n < |fetches| ==> fetches[n].Failed?
      ensures Contents() == PushReadings(old(Contents()), Readings(fetches[..n]))
      ensures Snapshot() == if n == 0 then old(Snapshot()) else fetches[n - 1].reading
    {
      ghost var start := Contents();
      n := 0;
      while n < |fetches|
        invariant n <= |fetches|
        invariant forall j :: 0 <= j < n ==> fetches[j].Fetched?
        invariant Contents() == PushReadings(start, Readings(fetches[..n]))
        invariant Snapshot() == if n == 0 then old(Snapshot()) else fetches[n - 1].reading
      {
        ghost var before := Contents();
        var ok := Sample(fetches[n]);
        if !ok {
          return;
        }
        assert Contents() == PushReading(before, fetches[n].reading);
        RunStep(start, fetches, n);
        n := n + 1;
      }
    }
  }

  /** memmove(&a[0], &a[1], 83 entries): everything moves one place left; the last entry stays. */
  method Shift(a: array<real>)
    requires a.Length == BufferLength
    modifies a
    ensures a[..] == old(a[..])[1..] + [old(a[BufferLength - 1])]
  {
    forall i | 0 <= i < BufferLength - 1 {
      a[i] := a[i + 1];
    }
  }

  /** The memmove followed by the store into the last entry is one push. */
  lemma ShiftThenStore(s: seq<real>, v: real)
    requires |s| == BufferLength
    ensures (s[1..] + [s[BufferLength - 1]])[BufferLength - 1 := v] == Pushed(s, v)
  {
  }

  /** One more successful pass pushes one more reading. */
  lemma RunStep(b: Axes<seq<real>>, fs: seq<Fetch>, n: nat)
    requires Full(b) && n < |fs| && fs[n].Fetched?
    ensures PushReadings(b, Readings(fs[..n + 1])) == PushReading(PushReadings(b, Readings(fs[..n])), fs[n].reading)
  {
    assert fs[..n + 1][..n] == fs[..n];
    var rs := Readings(fs[..n + 1]);
    assert rs == Readings(fs[..n]) + [fs[n].reading];
    assert rs[..|rs| - 1] == Readings(fs[..n]);
  }
}
