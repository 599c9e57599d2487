/** The session history (utils/helpers.ts): a most-recent-first list of
    analysis records kept under one storage key, at most 50 long. The list
    transforms are functions; the key itself is the field of HistoryStore,
    whose methods read it, apply one transform and write it back. */
module History {
  import opened Types

  /** `slice(0, 50)`: the number of records the history keeps. */
  const MaxEntries: nat := 50

  /** `s.slice(0, n)`: the first `n` elements, or all of `s` when shorter. */
  function Take<T>(s: seq<T>, n: nat): (r: seq<T>)
    ensures |r| == if |s| < n then |s| else n
    ensures r == s[..|r|]
  {
    if |s| <= n then s else s[..n]
  }

  /** `[item, ...history].slice(0, 50)`: the history after saving `item`. */
  function Saved(item: AnalysisResult, history: seq<AnalysisResult>): (r: seq<AnalysisResult>)
    ensures |r| == if |history| < MaxEntries then |history| + 1 else MaxEntries
    ensures r[0] == item
    ensures r[1..] == history[..|r| - 1]
  {
    Take([item] + history, MaxEntries)
  }

  /** `history.find(item => item.id === id) || null`: the first record
      with that id, or None when there is none. */
  function Find(history: seq<AnalysisResult>, id: string): (r: Option<AnalysisResult>)
    ensures r.None? <==> forall i :: 0 <= i < |history| ==> history[i].id != id
    ensures r.Some? ==> exists i :: 0 <= i < |history| && history[i] == r.value
                           && history[i].id == id
                           && forall j :: 0 <= j < i ==> history[j].id != id
  {
    if history == [] then None
    else if history[0].id == id then Some(history[0])
    else
      var r := Find(history[1..], id);
      assert forall i :: 1 <= i < |history| ==> history[i] == history[1..][i - 1];
      r
  }

  /** `history.filter(item => item.id !== id)`: every record whose id is
      not `id`, in their original order. */
  function Without(history: seq<AnalysisResult>, id: string): (r: seq<AnalysisResult>)
    ensures |r| <= |history|
    ensures forall x :: x in r <==> x in history && x.id != id
  {
    if history == [] then []
    else if history[0].id == id then Without(history[1..], id)
    else [history[0]] + Without(history[1..], id)
  }

  /** The content of the storage slot as getHistory reads it: the stored
      list, or the empty list when the key is absent. */
  function Stored(slot: Option<seq<AnalysisResult>>): seq<AnalysisResult>
  {
    if slot.Some? then slot.value else []
  }

  // ---------------------------------------------------------------------
  // Properties of the transforms

  /** With 50 records stored, saving drops exactly the oldest one. */
  lemma SaveEvictsOldest(item: AnalysisResult, history: seq<AnalysisResult>)
    requires |history| == MaxEntries
    ensures Saved(item, history) == [item] + history[..MaxEntries - 1]
  {
    var r := Saved(item, history);
    assert r == [r[0]] + r[1..];
  }

  /** Saving and then looking up the saved id gives back the saved record. */
  lemma FindAfterSave(item: AnalysisResult, history: seq<AnalysisResult>)
    ensures Find(Saved(item, history), item.id) == Some(item)
  {
  }

  /** Saving an id that is already stored does not remove the older entry:
      both are kept, and the lookup sees the newer one. */
  lemma SaveDoesNotDeduplicate(item: AnalysisResult, history: seq<AnalysisResult>, k: nat)
    requires k < |history| && k < MaxEntries - 1 && history[k].id == item.id
    ensures k + 1 < |Saved(item, history)|
    ensures Saved(item, history)[k + 1] == history[k]
    ensures Saved(item, history)[0].id == Saved(item, history)[k + 1].id
    ensures Find(Saved(item, history), item.id) == Some(item)
  {
    var r := Saved(item, history);
    assert r[1..][k] == history[k];
  }

  /** Filtering distributes over concatenation: what is kept of `a + b` is
      what is kept of `a` followed by what is kept of `b`, so the survivors
      keep their relative order. */
  lemma {:induction false} WithoutConcat(a: seq<AnalysisResult>, b: seq<AnalysisResult>, id: string)
    ensures Without(a + b, id) == Without(a, id) + Without(b, id)
  {
    if a == [] {
      assert a + b == b;
    } else {
      assert (a + b)[0] == a[0];
      assert (a + b)[1..] == a[1..] + b;
      WithoutConcat(a[1..], b, id);
    }
  }

  /** Deleting an id that is not stored changes nothing. */
  lemma {:induction false} WithoutAbsent(history: seq<AnalysisResult>, id: string)
    requires forall i :: 0 <= i < |history| ==> history[i].id != id
    ensures Without(history, id) == history
  {
    if history != [] {
      WithoutAbsent(history[1..], id);
      assert history == [history[0]] + history[1..];
    }
  }

  /** Deleting twice is deleting once. */
  lemma WithoutIdempotent(history: seq<AnalysisResult>, id: string)
    ensures Without(Without(history, id), id) == Without(history, id)
  {
    var r := Without(history, id);
    forall i | 0 <= i < |r|
      ensures r[i].id != id
    {
      assert r[i] in r;
    }
    WithoutAbsent(r, id);
  }

  /** After deleting `id` no record with that id is found, and lookups of
      every other id are unaffected. */
  lemma {:induction false} FindAfterWithout(history: seq<AnalysisResult>, id: string, other: string)
    ensures Find(Without(history, id), id).None?
    ensures other != id ==> Find(Without(history, id), other) == Find(history, other)
  {
    var r := Without(history, id);
    forall i | 0 <= i < |r|
      ensures r[i].id != id
    {
      assert r[i] in r;
    }
    if history != [] && other != id {
      FindAfterWithout(history[1..], id, other);
      if history[0].id != id {
        assert r == [history[0]] + Without(history[1..], id);
        assert r[1..] == Without(history[1..], id);
      }
    }
  }

  // ---------------------------------------------------------------------
  // The storage slot

  /** The `aurascale_history` key of the browser's local storage. JSON
      encoding and decoding are taken to be the identity. */
  class HistoryStore {
    var slot: Option<seq<AnalysisResult>>

    /** Every write this module makes keeps at most 50 records. */
    ghost predicate Bounded()
      reads this
    {
      |Stored(slot)| <= MaxEntries
    }

    /** A store over whatever the key holds when the page loads. */
    constructor (initial: Option<seq<AnalysisResult>>)
      ensures slot == initial
    {
      slot := initial;
    }

    /** getHistory */
    method GetHistory() returns (history: seq<AnalysisResult>)
      ensures slot.None? ==> history == []
      ensures slot.Some? ==> history == slot.value
    {
      if slot.Some? {
        history := slot.value;
      } else {
        history := [];
      }
    }

    /** saveToHistory */
    method SaveToHistory(item: AnalysisResult)
      modifies this
      ensures slot == Some(Saved(item, old(Stored(slot))))
      ensures Bounded()
    {
      var history := GetHistory();
      slot := Some(Saved(item, history));
    }

    /** getCachedResult */
    method GetCachedResult(hash: string) returns (cached: Option<AnalysisResult>)
      ensures cached.None? <==> forall i :: 0 <= i < |Stored(slot)| ==> Stored(slot)[i].id != hash
      ensures cached.Some? ==> cached.value.id == hash && cached.value in Stored(slot)
      ensures cached == Find(Stored(slot), hash)
    {
      var history := GetHistory();
      assert history == Stored(slot);
      cached := Find(history, hash);
    }

    /** deleteFromHistory: the key is written even when it was absent. */
    method DeleteFromHistory(id: string)
      modifies this
      ensures slot == Some(Without(old(Stored(slot)), id))
      ensures old(Bounded()) ==> Bounded()
    {
      var history := GetHistory();
      slot := Some(Without(history, id));
    }

    /** clearAllHistory: the key is removed. */
    method ClearAllHistory()
      modifies this
      ensures slot.None? && Stored(slot) == []
      ensures Bounded()
    {
      slot := None;
    }
  }
}
