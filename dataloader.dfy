/**
 * The dataset cursor: the sorted readings of the dataset and a circular read
 * position that replays them forever (backend/utils/dataloader.js).
 */
module DataLoading {
  import opened Wrappers
  import opened Readings

  /** How many readings before the cursor form the current window. */
  const HistoricalWindow: nat := 30

  /** How many leading readings are handed to training. */
  const TrainingRows: nat := 60

  function Min(a: int, b: int): int { if a <= b then a else b }
  function Max(a: int, b: int): int { if a >= b then a else b }

  /**
   * What reading the CSV file yields: no file, a stream that failed, or the
   * parsed rows in file order.
   */
  datatype CsvSource = Missing | Unreadable | Rows(rows: seq<ParsedRow>)

  datatype LoadError = FileNotFound | ReadFailed | NoValidData

  /** `Array.prototype.slice(start, end)` for non-negative bounds: both are clamped to the length. */
  function Slice<T>(s: seq<T>, start: nat, end: nat): (r: seq<T>)
    ensures |r| <= |s| && (start <= end ==> |r| <= end - start)
    ensures start <= end <= |s| ==> r == s[start..end]
  {
    var lo := Min(start, |s|);
    var hi := Min(end, |s|);
    if lo <= hi then s[lo..hi] else []
  }

  // ---------------------------------------------------------------- filtering

  /** The readings of the rows that pass the filter, in file order. */
  function ValidReadings(rows: seq<ParsedRow>): (r: seq<Reading>)
  {
    if rows == [] then []
    else
      var last := rows[|rows| - 1];
      ValidReadings(rows[..|rows| - 1]) + (if IsValidReading(last) then [ToReading(last)] else [])
  }

  /** The filter keeps a reading exactly when some row that passes `IsValidReading` produced it. */
  lemma {:induction false} ValidReadingsExactly(rows: seq<ParsedRow>, x: Reading)
    ensures x in ValidReadings(rows) <==>
            exists i :: 0 <= i < |rows| && IsValidReading(rows[i]) && ToReading(rows[i]) == x
  {
    if rows != [] {
      var init := rows[..|rows| - 1];
      var last := rows[|rows| - 1];
      ValidReadingsExactly(init, x);
      if x in ValidReadings(rows) {
        if x in ValidReadings(init) {
          var i :| 0 <= i < |init| && IsValidReading(init[i]) && ToReading(init[i]) == x;
          assert rows[i] == init[i];
        } else {
          assert IsValidReading(last) && ToReading(last) == x;
        }
      }
      if exists i :: 0 <= i < |rows| && IsValidReading(rows[i]) && ToReading(rows[i]) == x {
        var i :| 0 <= i < |rows| && IsValidReading(rows[i]) && ToReading(rows[i]) == x;
        if i < |rows| - 1 {
          assert init[i] == rows[i];
        }
      }
    }
  }

  /** A row that fails the filter never reaches the dataset. */
  lemma {:induction false} InvalidRowsDropped(rows: seq<ParsedRow>)
    requires forall i :: 0 <= i < |rows| ==> !IsValidReading(rows[i])
    ensures ValidReadings(rows) == []
  {
    if rows != [] {
      InvalidRowsDropped(rows[..|rows| - 1]);
    }
  }

  // ------------------------------------------------------------------ sorting

  predicate SortedByTimestamp(s: seq<Reading>)
  {
    forall i, j :: 0 <= i < j < |s| ==> s[i].timestamp <= s[j].timestamp
  }

  /** Places `x` before the first reading that is not earlier than it. */
  function Insert(x: Reading, s: seq<Reading>): (r: seq<Reading>)
    requires SortedByTimestamp(s)
    ensures SortedByTimestamp(r)
    ensures multiset(r) == multiset(s) + multiset{x}
    ensures forall k :: 0 <= k < |r| ==> r[k] == x || r[k] in s
  {
    if s == [] || x.timestamp <= s[0].timestamp then [x] + s
    else
      var rest := Insert(x, s[1..]);
      assert s == [s[0]] + s[1..];
      [s[0]] + rest
  }

  /**
   * The order `results.sort((a, b) => a.timestamp - b.timestamp)` leaves:
   * a stable sort by timestamp (insertion from the front keeps equal
   * timestamps in file order).
   */
  function SortByTimestamp(s: seq<Reading>): (r: seq<Reading>)
    ensures SortedByTimestamp(r)
    ensures multiset(r) == multiset(s)
  {
    if s == [] then []
    else
      assert s == [s[0]] + s[1..];
      Insert(s[0], SortByTimestamp(s[1..]))
  }

  // ------------------------------------------------------------ cursor replay

  /** One `getNextReading` call on `data` with the cursor at `index`: the reading it returns and the next cursor. */
  function Step(data: seq<Reading>, index: nat): (Option<Reading>, nat)
  {
    if |data| == 0 then (None, index)
    else (if index < |data| then Some(data[index]) else None, (index + 1) % |data|)
  }

  /** `k` consecutive `getNextReading` calls: the readings returned and the final cursor. */
  function Replay(data: seq<Reading>, index: nat, k: nat): (r: (seq<Option<Reading>>, nat))
    ensures |r.0| == k
    decreases k
  {
    if k == 0 then ([], index)
    else
      var step := Step(data, index);
      var rest := Replay(data, step.1, k - 1);
      ([step.0] + rest.0, rest.1)
  }

  /** The dataset read circularly from position `index`. */
  function Rotate(data: seq<Reading>, index: nat): (r: seq<Reading>)
    requires index <= |data|
    ensures multiset(r) == multiset(data)
  {
    assert data == data[..index] + data[index..];
    data[index..] + data[..index]
  }

  /** A position `a < 2N` read circularly on a dataset of size `N`. */
  function Wrap(a: nat, n: nat): nat
  {
    if a < n then a else a - n
  }

  /** From an in-range cursor, a call returns the reading under it and moves one place on, back to 0 after the last. */
  lemma StepInRange(data: seq<Reading>, index: nat)
    requires index < |data|
    ensures Step(data, index) == (Some(data[index]), if index + 1 < |data| then index + 1 else 0)
  {
  }

  /**
   * Up to `N` calls from an in-range cursor: call `j` returns the reading at
   * circular position `index + j`, and the cursor ends at `index + k`, read
   * circularly.
   */
  lemma {:induction false} ReplayFrom(data: seq<Reading>, index: nat, k: nat)
    requires index < |data| && k <= |data|
    ensures Replay(data, index, k).1 == Wrap(index + k, |data|)
    ensures forall j :: 0 <= j < k ==> Replay(data, index, k).0[j] == Some(data[Wrap(index + j, |data|)])
    decreases k
  {
    var n := |data|;
    if k > 0 {
      var next := if index + 1 < n then index + 1 else 0;
      StepInRange(data, index);
      ReplayFrom(data, next, k - 1);
      var xs := Replay(data, next, k - 1).0;
      var out := Replay(data, index, k).0;
      assert out == [Some(data[index])] + xs;
      forall j | 1 <= j < k
        ensures out[j] == Some(data[Wrap(index + j, n)])
      {
        assert out[j] == xs[j - 1];
      }
    }
  }

  /**
   * Circular replay: `N` consecutive calls on a dataset of size `N` return
   * every reading once, in circular order from the cursor, and leave the
   * cursor where it started.
   */
  lemma FullCycle(data: seq<Reading>, index: nat)
    requires index < |data|
    ensures Replay(data, index, |data|).1 == index
    ensures forall j :: 0 <= j < |data| ==> Replay(data, index, |data|).0[j] == Some(Rotate(data, index)[j])
    ensures multiset(Rotate(data, index)) == multiset(data)
  {
    ReplayFrom(data, index, |data|);
  }

  // ------------------------------------------------------------------- cursor

  class DataLoader {
    /** The readings, sorted by timestamp once loaded. */
    var data: seq<Reading>
    /** The position of the next reading `GetNextReading` returns. */
    var currentIndex: nat

    constructor()
      ensures data == [] && currentIndex == 0
    {
      data := [];
      currentIndex := 0;
    }

    /**
     * Filters the parsed rows, fails when none remain, and otherwise stores
     * them sorted by timestamp. The cursor is not reset: a reload with a
     * smaller dataset can leave it out of range.
     */
    method LoadData(source: CsvSource) returns (r: Result<seq<Reading>, LoadError>)
      modifies this`data
      ensures source.Missing? ==> r == Failure(FileNotFound) && data == old(data)
      ensures source.Unreadable? ==> r == Failure(ReadFailed) && data == old(data)
      ensures source.Rows? && ValidReadings(source.rows) == [] ==>
                r == Failure(NoValidData) && data == old(data)
      ensures source.Rows? && ValidReadings(source.rows) != [] ==>
                && r == Success(data)
                && data == SortByTimestamp(ValidReadings(source.rows))
                && SortedByTimestamp(data)
                && multiset(data) == multiset(ValidReadings(source.rows))
    {
      if source.Missing? {
        return Failure(FileNotFound);
      }
      if source.Unreadable? {
        return Failure(ReadFailed);
      }
      var rows := source.rows;
      var results: seq<Reading> := [];
      for i := 0 to |rows|
        invariant results == ValidReadings(rows[..i])
      {
        assert rows[..i + 1][..i] == rows[..i];
        if IsValidReading(rows[i]) {
          results := results + [ToReading(rows[i])];
        }
      }
      assert rows[..|rows|] == rows;
      if |results| == 0 {
        return Failure(NoValidData);
      }
      data := SortByTimestamp(results);
      r := Success(data);
    }

    /** Returns the reading under the cursor and advances the cursor circularly. */
    method GetNextReading() returns (r: Option<Reading>)
      modifies this`currentIndex
      ensures (r, currentIndex) == Step(data, old(currentIndex))
      ensures data == [] ==> r == None && currentIndex == old(currentIndex)
      ensures data != [] ==> currentIndex == (old(currentIndex) + 1) % |data| && currentIndex < |data|
      ensures old(currentIndex) < |data| ==> r == Some(data[old(currentIndex)])
    {
      if |data| == 0 {
        return None;
      }
      r := if currentIndex < |data| then Some(data[currentIndex]) else None;
      currentIndex := (currentIndex + 1) % |data|;
    }

    /** The readings strictly before the cursor, at most `HistoricalWindow` of them; no wrap-around. */
    function GetCurrentWindowData(): (w: seq<Reading>)
      reads this
      ensures |w| <= HistoricalWindow
      ensures currentIndex <= |data| ==>
                && w == data[Max(0, currentIndex - HistoricalWindow)..currentIndex]
                && |w| == Min(currentIndex, HistoricalWindow)
      ensures currentIndex == 0 ==> w == []
    {
      var endIndex := currentIndex;
      var startIndex := Max(0, endIndex - HistoricalWindow);
      Slice(data, startIndex, endIndex)
    }

    /** The leading readings used to fit the scalers and train the network. */
    function GetInitialTrainingData(): (t: seq<Reading>)
      reads this
      ensures |t| == Min(TrainingRows, |data|)
      ensures t <= data
    {
      data[..Min(TrainingRows, |data|)]
    }

    function Size(): nat
      reads this
    {
      |data|
    }

    function GetCurrentIndex(): nat
      reads this
    {
      currentIndex
    }
  }
}
