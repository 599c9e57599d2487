/** The upload controller of the page component (App.tsx): its four pieces
    of state, the upload handler with its cache check, and the two handlers
    that show or dismiss a result. The file reader, the SHA-256 digest, the
    face scorer and the clock are parameters: each call's outcome is given,
    and may be a failure carrying the thrown error's message. */
module App {
  import opened Types
  import opened Hex
  import opened History
  import opened Ranking

  /** The text shown when a thrown error has no message. */
  const DefaultError: string := "An unexpected error occurred during analysis."

  /** `err.message || DefaultError` */
  function ErrorText(message: string): (r: string)
    ensures r != []
    ensures message != [] ==> r == message
  {
    if message == [] then DefaultError else message
  }

  /** How one call of the upload handler ends: no file picked, an error
      caught (`scored` tells whether the scorer had been called), a record
      found in the history, or a freshly scored record. */
  datatype Outcome =
    | NoFile
    | Failed(message: string, scored: bool)
    | CacheHit(record: AnalysisResult)
    | Fresh(record: AnalysisResult)

  /** What handleFileUpload does with the picked file (`None` when no file
      was picked; otherwise what fileToBase64 made of it), given the digest
      and the scorer, the stored history and the current time. */
  function Upload(
    file: Option<Result<string>>,
    sha256: string -> Result<Digest>,
    analyzeFaces: string -> Result<seq<FaceAnalysis>>,
    history: seq<AnalysisResult>,
    now: int): (o: Outcome)
    ensures o.NoFile? <==> file.None?
    ensures o.Failed? ==> o.message != []
  {
    match file
    case None => NoFile
    case Some(Err(m)) => Failed(ErrorText(m), false)
    case Some(Ok(base64)) => Analyze(base64, sha256, analyzeFaces, history, now)
  }

  /** The part of handleFileUpload after the file has been read into the
      data URL `base64`: fingerprint, cache lookup, scoring. */
  function Analyze(
    base64: string,
    sha256: string -> Result<Digest>,
    analyzeFaces: string -> Result<seq<FaceAnalysis>>,
    history: seq<AnalysisResult>,
    now: int): Outcome
  {
    match GenerateHash(sha256, base64)
    case Err(m) => Failed(ErrorText(m), false)
    case Ok(hash) =>
      match Find(history, hash)
      case Some(cached) => CacheHit(cached)
      case None =>
        match analyzeFaces(base64)
        case Err(m) => Failed(ErrorText(m), true)
        case Ok(faces) => Fresh(AnalysisResult(hash, now, base64, SortByScore(faces)))
  }

  // ---------------------------------------------------------------------
  // Properties of an upload

  /** A cache hit returns the stored record whose id is the image's
      fingerprint, and does not depend on the scorer or the clock: the
      scorer is never consulted. */
  lemma CacheHitSkipsScorer(
    file: Option<Result<string>>,
    sha256: string -> Result<Digest>,
    analyzeFaces: string -> Result<seq<FaceAnalysis>>,
    otherScorer: string -> Result<seq<FaceAnalysis>>,
    history: seq<AnalysisResult>,
    now: int, otherNow: int)
    requires Upload(file, sha256, analyzeFaces, history, now).CacheHit?
    ensures var r := Upload(file, sha256, analyzeFaces, history, now).record;
      && file.Some? && file.value.Ok?
      && GenerateHash(sha256, file.value.value) == Ok(r.id)
      && r in history
      && Find(history, r.id) == Some(r)
      && Upload(file, sha256, otherScorer, history, otherNow) == CacheHit(r)
  {
  }

  /** A miss yields a record whose id is the fingerprint and whose image is
      the uploaded data, whose faces are the scorer's faces reordered by
      non-increasing score (stably), and which the history did not hold yet. */
  lemma FreshRecord(
    file: Option<Result<string>>,
    sha256: string -> Result<Digest>,
    analyzeFaces: string -> Result<seq<FaceAnalysis>>,
    history: seq<AnalysisResult>,
    now: int)
    requires Upload(file, sha256, analyzeFaces, history, now).Fresh?
    ensures file.Some? && file.value.Ok?
    ensures var base64 := file.value.value;
      var r := Upload(file, sha256, analyzeFaces, history, now).record;
      && sha256(base64).Ok? && analyzeFaces(base64).Ok?
      && r.id == Render(sha256(base64).value) && |r.id| == 64
      && r.imageData == base64 && r.timestamp == now
      && Find(history, r.id).None?
      && SortedByScore(r.faces)
      && multiset(r.faces) == multiset(analyzeFaces(base64).value)
      && (forall v :: WithScore(r.faces, v) == WithScore(analyzeFaces(base64).value, v))
  {
    var base64 := file.value.value;
    var faces := analyzeFaces(base64).value;
    forall v
      ensures WithScore(SortByScore(faces), v) == WithScore(faces, v)
    {
      SortIsStable(faces, v);
    }
  }

  /** A failure reports the message of the first step that threw (or the
      default text), and the scorer has been called exactly when the file
      was read, fingerprinted and not found in the history. */
  lemma FailureReportsFirstError(
    file: Option<Result<string>>,
    sha256: string -> Result<Digest>,
    analyzeFaces: string -> Result<seq<FaceAnalysis>>,
    history: seq<AnalysisResult>,
    now: int)
    requires Upload(file, sha256, analyzeFaces, history, now).Failed?
    ensures file.Some?
    ensures var o := Upload(file, sha256, analyzeFaces, history, now);
      var read := file.value;
      if read.Err? then o == Failed(ErrorText(read.message), false)
      else if sha256(read.value).Err? then o == Failed(ErrorText(sha256(read.value).message), false)
      else && Find(history, Render(sha256(read.value).value)).None?
           && analyzeFaces(read.value).Err?
           && o == Failed(ErrorText(analyzeFaces(read.value).message), true)
  {
  }

  /** Uploading the same image again after its record was saved is a cache
      hit on that very record, whatever the scorer would now say. */
  lemma ResubmitIsCacheHit(
    file: Option<Result<string>>,
    sha256: string -> Result<Digest>,
    analyzeFaces: string -> Result<seq<FaceAnalysis>>,
    laterScorer: string -> Result<seq<FaceAnalysis>>,
    history: seq<AnalysisResult>,
    now: int, later: int)
    requires Upload(file, sha256, analyzeFaces, history, now).Fresh?
    ensures var r := Upload(file, sha256, analyzeFaces, history, now).record;
      Upload(file, sha256, laterScorer, Saved(r, history), later) == CacheHit(r)
  {
    var r := Upload(file, sha256, analyzeFaces, history, now).record;
    FindAfterSave(r, history);
  }

  /** A session over an empty history: image A is scored, A again is a hit
      on the same record, a different image B is scored and saved in
      front of A; deleting A leaves only B, and clearing leaves nothing. */
  lemma SessionScenario(
    sha256: string -> Result<Digest>,
    analyzeFaces: string -> Result<seq<FaceAnalysis>>,
    a: string, b: string,
    t1: int, t2: int, t3: int)
    requires sha256(a).Ok? && sha256(b).Ok? && sha256(a).value != sha256(b).value
    requires analyzeFaces(a).Ok? && analyzeFaces(b).Ok?
    ensures var first := Upload(Some(Ok(a)), sha256, analyzeFaces, [], t1);
      && first.Fresh?
      && var h1 := Saved(first.record, []);
      && Upload(Some(Ok(a)), sha256, analyzeFaces, h1, t2) == CacheHit(first.record)
      && var third := Upload(Some(Ok(b)), sha256, analyzeFaces, h1, t3);
      && third.Fresh?
      && var h3 := Saved(third.record, h1);
      && h3 == [third.record, first.record]
      && Without(h3, first.record.id) == [third.record]
      && Stored(None) == []
  {
    var first := Upload(Some(Ok(a)), sha256, analyzeFaces, [], t1);
    var h1 := Saved(first.record, []);
    FindAfterSave(first.record, []);
    RenderInjective(sha256(a).value, sha256(b).value);
    assert h1 == [first.record];
    var third := Upload(Some(Ok(b)), sha256, analyzeFaces, h1, t3);
    assert third.Fresh?;
    var h3 := Saved(third.record, h1);
    assert h3 == [third.record, first.record];
    assert h3[1..] == [first.record];
    assert Without([first.record], first.record.id) == [];
  }

  /** The same session run through the objects themselves: a component
      mounted over an absent key, three uploads through its handler, then a
      delete, a clear and a read through the store. Returns the result shown
      after each upload, the history listed after the third, and what the
      store reads as after the delete and after the clear; the scorer is
      called for the first and third upload only. */
  method SessionThroughComponent(
    sha256: string -> Result<Digest>,
    analyzeFaces: string -> Result<seq<FaceAnalysis>>,
    a: string, b: string,
    t1: int, t2: int, t3: int)
    returns (shown: seq<Option<AnalysisResult>>, listed: seq<AnalysisResult>,
             afterDelete: seq<AnalysisResult>, afterClear: seq<AnalysisResult>)
    requires sha256(a).Ok? && sha256(b).Ok? && sha256(a).value != sha256(b).value
    requires analyzeFaces(a).Ok? && analyzeFaces(b).Ok?
    ensures var ra := AnalysisResult(Render(sha256(a).value), t1, a, SortByScore(analyzeFaces(a).value));
      var rb := AnalysisResult(Render(sha256(b).value), t3, b, SortByScore(analyzeFaces(b).value));
      && shown == [Some(ra), Some(ra), Some(rb)]
      && listed == [rb, ra]
      && afterDelete == [rb]
      && afterClear == []
  {
    var st := new HistoryStore(None);
    var app := new AppComponent(st);
    var ra := AnalysisResult(Render(sha256(a).value), t1, a, SortByScore(analyzeFaces(a).value));
    var rb := AnalysisResult(Render(sha256(b).value), t3, b, SortByScore(analyzeFaces(b).value));
    SessionScenario(sha256, analyzeFaces, a, b, t1, t2, t3);
    assert Upload(Some(Ok(a)), sha256, analyzeFaces, [], t1) == Fresh(ra);
    assert Saved(ra, []) == [ra];
    assert Upload(Some(Ok(b)), sha256, analyzeFaces, [ra], t3) == Fresh(rb);

    app.HandleFileUpload(Some(Ok(a)), sha256, analyzeFaces, t1);
    assert app.scorerCalls == 1 && st.slot == Some([ra]);
    var r1 := app.result;

    app.HandleFileUpload(Some(Ok(a)), sha256, analyzeFaces, t2);
    assert app.scorerCalls == 1 && st.slot == Some([ra]);
    var r2 := app.result;

    app.HandleFileUpload(Some(Ok(b)), sha256, analyzeFaces, t3);
    assert app.scorerCalls == 2;
    shown := [r1, r2, app.result];
    listed := app.history;

    st.DeleteFromHistory(ra.id);
    afterDelete := st.GetHistory();

    st.ClearAllHistory();
    afterClear := st.GetHistory();
  }

  // ---------------------------------------------------------------------
  // The component

  /** The page component's state (`status`, `result`, `history`, `error`)
      and the storage key it reads and writes through the history helpers.
      Two ghost fields record what the source leaves implicit: every status
      set in turn, and how many times the scorer has been called. */
  class AppComponent {
    var status: AnalysisStatus
    var result: Option<AnalysisResult>
    var history: seq<AnalysisResult>
    var error: Option<string>
    const store: HistoryStore
    ghost var statusLog: seq<AnalysisStatus>
    ghost var scorerCalls: nat

    /** Mounting: the initial state, then the effect that loads the history. */
    constructor (store: HistoryStore)
      ensures this.store == store
      ensures status == Idle && result == None && error == None
      ensures history == Stored(store.slot)
      ensures statusLog == [] && scorerCalls == 0
    {
      this.store := store;
      status := Idle;
      result := None;
      error := None;
      statusLog := [];
      scorerCalls := 0;
      new;
      history := store.GetHistory();
    }

    method SetStatus(s: AnalysisStatus)
      modifies this`status, this`statusLog
      ensures status == s && statusLog == old(statusLog) + [s]
    {
      status := s;
      statusLog := statusLog + [s];
    }

    /** The catch block: the message (or the default text), then ERROR. */
    method Fail(message: string)
      modifies this`status, this`statusLog, this`error
      ensures error == Some(ErrorText(message))
      ensures status == Error && statusLog == old(statusLog) + [Error]
    {
      error := Some(ErrorText(message));
      SetStatus(Error);
    }

    /** The state after an upload that ended with `o`, given the storage
        key, result, history and scorer count before it. */
    ghost predicate Shows(
      o: Outcome,
      slot0: Option<seq<AnalysisResult>>,
      result0: Option<AnalysisResult>,
      history0: seq<AnalysisResult>,
      calls0: nat)
      reads this, store
    {
      match o
      case NoFile =>
        && result == result0 && history == history0
        && store.slot == slot0 && scorerCalls == calls0
      case Failed(message, scored) =>
        && status == Error && error == Some(message)
        && result == result0 && history == history0
        && store.slot == slot0
        && scorerCalls == calls0 + (if scored then 1 else 0)
      case CacheHit(record) =>
        && status == Success && error == None && result == Some(record)
        && history == history0
        && store.slot == slot0 && scorerCalls == calls0
      case Fresh(record) =>
        && status == Success && error == None && result == Some(record)
        && store.slot == Some(Saved(record, Stored(slot0)))
        && history == Stored(store.slot) && history[0] == record
        && scorerCalls == calls0 + 1
    }

    /** handleFileUpload */
    method HandleFileUpload(
      file: Option<Result<string>>,
      sha256: string -> Result<Digest>,
      analyzeFaces: string -> Result<seq<FaceAnalysis>>,
      now: int)
      modifies this, store
      ensures file.None? ==> statusLog == old(statusLog) && status == old(status) && error == old(error)
      ensures file.Some? ==> statusLog == old(statusLog) + [Loading, status]
      ensures Shows(Upload(file, sha256, analyzeFaces, old(Stored(store.slot)), now),
                    old(store.slot), old(result), old(history), old(scorerCalls))
    {
      if file.None? {
        return;
      }
      SetStatus(Loading);
      error := None;
      match file.value
      case Err(message) =>
        Fail(message);
      case Ok(base64) =>
        AnalyzeImage(base64, sha256, analyzeFaces, now);
    }

    /** The body of the try block after `fileToBase64` has returned. */
    method AnalyzeImage(
      base64: string,
      sha256: string -> Result<Digest>,
      analyzeFaces: string -> Result<seq<FaceAnalysis>>,
      now: int)
      requires error == None
      modifies this, store
      ensures statusLog == old(statusLog) + [status]
      ensures Shows(Analyze(base64, sha256, analyzeFaces, old(Stored(store.slot)), now),
                    old(store.slot), old(result), old(history), old(scorerCalls))
    {
      var hashed := GenerateHash(sha256, base64);
      if hashed.Err? {
        Fail(hashed.message);
        return;
      }
      var hash := hashed.value;

      var cached := store.GetCachedResult(hash);
      if cached.Some? {
        result := cached;
        SetStatus(Success);
        return;
      }

      scorerCalls := scorerCalls + 1;
      var scored := analyzeFaces(base64);
      if scored.Err? {
        Fail(scored.message);
        return;
      }
      var newResult := AnalysisResult(hash, now, base64, SortByScore(scored.value));
      Publish(newResult);
    }

    /** Shows a freshly scored record, saves it and reloads the history. */
    method Publish(record: AnalysisResult)
      modifies this`result, this`history, this`status, this`statusLog, store
      ensures result == Some(record) && status == Success
      ensures statusLog == old(statusLog) + [Success]
      ensures store.slot == Some(Saved(record, old(Stored(store.slot))))
      ensures history == Stored(store.slot) && history[0] == record
    {
      result := Some(record);
      store.SaveToHistory(record);
      history := store.GetHistory();
      SetStatus(Success);
    }

    /** clearResults */
    method ClearResults()
      modifies this`result, this`status, this`statusLog
      ensures result == None && status == Idle
      ensures statusLog == old(statusLog) + [Idle]
    {
      result := None;
      SetStatus(Idle);
    }

    /** Clicking the entry at `index` of the history list shown on the page. */
    method OpenHistoryItem(index: nat)
      requires index < |history|
      modifies this`result, this`status, this`statusLog
      ensures result == Some(history[index]) && status == Success
      ensures statusLog == old(statusLog) + [Success]
    {
      result := Some(history[index]);
      SetStatus(Success);
    }
  }
}
