/**
 * The history store: past identifications, newest first, kept to at most
 * twenty entries when a new one arrives, and saved in one storage slot as
 * text that may fail to parse back.
 */
module HistoryStore {
  import opened PlantTypes

  /** The number of records an identification keeps. */
  const Capacity: nat := 20

  function Min(a: int, b: int): int { if a <= b then a else b }

  /** The first `n` elements of `s` (all of them when there are fewer). */
  function Take<T>(s: seq<T>, n: nat): (r: seq<T>)
    ensures |r| == Min(|s|, n) && r == s[..|r|]
  {
    if |s| <= n then s else s[..n]
  }

  /**
   * The record an identification stores: the recognised description with
   * `id` set to the text of one clock reading and `timestamp` to another
   * (the two readings are taken one after the other and may differ).
   */
  function Stamp(info: PlantInfo, idClock: int, tsClock: int): (r: PlantInfo)
    ensures r.id == Some(DecimalString(idClock)) && r.timestamp == Some(tsClock)
    ensures r.(id := info.id, timestamp := info.timestamp) == info
    ensures FieldNames(r) == FieldNames(info) + {"id", "timestamp"}
  {
    info.(id := Some(DecimalString(idClock)), timestamp := Some(tsClock))
  }

  /**
   * The history after an identification: the new record in front, then the
   * old history cut so that at most `Capacity` records remain.
   */
  function Append(h: seq<PlantInfo>, rec: PlantInfo): (r: seq<PlantInfo>)
    ensures |r| == Min(|h| + 1, Capacity) && |r| <= Capacity
    ensures r[0] == rec
    ensures r[1..] == h[..Min(|h|, Capacity - 1)]
  {
    Take([rec] + h, Capacity)
  }

  /** When the old history is full, exactly its oldest records are evicted. */
  lemma AppendEvictsOldest(h: seq<PlantInfo>, rec: PlantInfo)
    requires |h| >= Capacity
    ensures Append(h, rec)[1..] + h[Capacity - 1..] == h
    ensures |h[Capacity - 1..]| == |h| - Capacity + 1
  {
    assert Append(h, rec)[1..] == h[..Capacity - 1];
  }

  /** `s` in the opposite order. */
  function Reversed<T>(s: seq<T>): (r: seq<T>)
    ensures |r| == |s|
  {
    if s == [] then [] else [s[|s| - 1]] + Reversed(s[..|s| - 1])
  }

  /** The history after identifying `recs` in order, starting from `h`. */
  function AppendAll(h: seq<PlantInfo>, recs: seq<PlantInfo>): seq<PlantInfo>
  {
    if recs == [] then h else Append(AppendAll(h, recs[..|recs| - 1]), recs[|recs| - 1])
  }

  lemma TakeAbsorbs<T>(x: T, s: seq<T>, n: nat)
    requires n >= 1
    ensures Take([x] + Take(s, n), n) == Take([x] + s, n)
  {
  }

  /**
   * After any non-empty run of identifications the store holds the
   * `Capacity` most recent records of (new records, then the old history),
   * newest first; in particular never more than `Capacity`.
   */
  lemma {:induction false} AppendAllKeepsNewest(h: seq<PlantInfo>, recs: seq<PlantInfo>)
    requires |recs| > 0
    ensures AppendAll(h, recs) == Take(Reversed(recs) + h, Capacity)
    ensures |AppendAll(h, recs)| <= Capacity
  {
    var init, last := recs[..|recs| - 1], recs[|recs| - 1];
    assert Reversed(recs) == [last] + Reversed(init);
    if init == [] {
      assert AppendAll(h, init) == h;
    } else {
      AppendAllKeepsNewest(h, init);
      TakeAbsorbs(last, Reversed(init) + h, Capacity);
      assert [last] + (Reversed(init) + h) == Reversed(recs) + h;
    }
  }

  lemma {:induction false} ReversedCons<T>(x: T, s: seq<T>)
    ensures Reversed([x] + s) == Reversed(s) + [x]
    decreases |s|
  {
    if s != [] {
      var xs := [x] + s;
      assert xs[..|xs| - 1] == [x] + s[..|s| - 1];
      ReversedCons(x, s[..|s| - 1]);
    }
  }

  /**
   * Twenty-one identifications into an empty history keep the last twenty,
   * newest first: only the first record is evicted.
   */
  lemma OldestEvictedAfterTwentyOne(recs: seq<PlantInfo>)
    requires |recs| == Capacity + 1
    ensures AppendAll([], recs) == Reversed(recs[1..])
    ensures |AppendAll([], recs)| == Capacity && AppendAll([], recs)[0] == recs[Capacity]
  {
    AppendAllKeepsNewest([], recs);
    assert recs == [recs[0]] + recs[1..];
    ReversedCons(recs[0], recs[1..]);
    assert Reversed(recs) + [] == Reversed(recs[1..]) + [recs[0]];
  }

  /**
   * The history loaded at start: the saved text replaces `current` only when
   * there is saved text, it is not empty, and it parses. Nothing is cut.
   */
  function Loaded(saved: Option<string>, parse: string -> Option<seq<PlantInfo>>,
                  current: seq<PlantInfo>): (r: seq<PlantInfo>)
    ensures r != current ==> saved.Some? && saved.value != "" && parse(saved.value) == Some(r)
    ensures saved.Some? && saved.value != "" && parse(saved.value).Some? ==> Some(r) == parse(saved.value)
  {
    if saved.Some? && saved.value != "" then
      match parse(saved.value)
      case Some(h) => h
      case None => current
    else current
  }

  /**
   * Saving then loading restores the history exactly, whatever its length,
   * as long as the codec reads back what it writes and writes non-empty text;
   * a slot that is absent, empty or unreadable loads as the empty history.
   */
  lemma SaveThenLoad(h: seq<PlantInfo>, parse: string -> Option<seq<PlantInfo>>,
                     serialize: seq<PlantInfo> -> string, saved: Option<string>)
    requires parse(serialize(h)) == Some(h) && serialize(h) != ""
    ensures Loaded(Some(serialize(h)), parse, []) == h
    ensures saved.None? || (saved.Some? && saved.value == "") ==> Loaded(saved, parse, []) == []
    ensures saved.Some? && parse(saved.value).None? ==> Loaded(saved, parse, []) == []
  {
  }
}
