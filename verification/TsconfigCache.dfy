/**
  The cache of compiler options: the configuration file is parsed again only when its modification time
  has changed, and a callback tells when the options did.
 */
module TsconfigCache {
  import opened Prelude

  datatype Tristate = Unknown | False | True

  /** The options that the cache touches; `others` stands for the rest. */
  datatype Options = Options(
    moduleKind: string, moduleResolution: string, noEmit: Tristate, sourceMap: Tristate, inlineSourceMap: Tristate,
    target: Option<string>, lib: Option<seq<string>>, skipLibCheck: Tristate, strict: Tristate, others: string)

  /** What the parser makes of a configuration: its options, and the text that the cache hands out. */
  datatype Parsed = Parsed(options: Options, text: string)

  type Parser = string -> Option<Parsed>

  /** The file as a call finds it. */
  datatype World = Missing | Unreadable(mtime: nat) | Present(mtime: nat, content: string)

  /** A missing file counts as time zero. */
  function Time(w: World): nat {
    if w.Missing? then 0 else w.mtime
  }

  function FromBool(b: bool): Tristate {
    if b then True else False
  }

  /** Forced options, and defaults for those that are not given. */
  function Adjust(o: Options, sourceMap: bool): Options {
    o.(moduleKind := "node16", moduleResolution := "node16", noEmit := False,
       sourceMap := FromBool(sourceMap), inlineSourceMap := FromBool(sourceMap),
       target := if o.target.None? then Some("es2022") else o.target,
       lib := if o.lib.None? then Some(["lib.es2022.d.ts"]) else o.lib,
       skipLibCheck := if o.skipLibCheck.Unknown? then True else o.skipLibCheck,
       strict := if o.strict.Unknown? then True else o.strict)
  }

  function OrElse<T>(given: Option<T>, default: T): T {
    if given.Some? then given.value else default
  }

  function Known(given: Tristate): Tristate {
    if given.Unknown? then True else given
  }

  /**
    What was given is kept and nothing is left open; a second adjustment changes nothing; and two sets of
    options come out alike exactly when they agree, defaults filled in, on what is not forced.
   */
  lemma AdjustMeans(o: Options, p: Options, sourceMap: bool)
    ensures var r := Adjust(o, sourceMap);
      && r.others == o.others && r.target.Some? && r.lib.Some? && !r.skipLibCheck.Unknown? && !r.strict.Unknown?
      && (o.target.Some? ==> r.target == o.target) && (o.lib.Some? ==> r.lib == o.lib)
      && (!o.skipLibCheck.Unknown? ==> r.skipLibCheck == o.skipLibCheck)
      && (!o.strict.Unknown? ==> r.strict == o.strict)
    ensures Adjust(Adjust(o, sourceMap), sourceMap) == Adjust(o, sourceMap)
    ensures Adjust(o, sourceMap) == Adjust(p, sourceMap) <==>
      && o.others == p.others
      && OrElse(o.target, "es2022") == OrElse(p.target, "es2022")
      && OrElse(o.lib, ["lib.es2022.d.ts"]) == OrElse(p.lib, ["lib.es2022.d.ts"])
      && Known(o.skipLibCheck) == Known(p.skipLibCheck) && Known(o.strict) == Known(p.strict)
  {
    var a, b := Adjust(o, sourceMap), Adjust(p, sourceMap);
    assert a.target == Some(OrElse(o.target, "es2022")) && b.target == Some(OrElse(p.target, "es2022"));
    assert a.lib == Some(OrElse(o.lib, ["lib.es2022.d.ts"])) && b.lib == Some(OrElse(p.lib, ["lib.es2022.d.ts"]));
  }

  /** The answer that reading the file anew would give. */
  function Fresh(parse: Parser, sourceMap: bool, w: World): Option<Parsed> {
    if w.Unreadable? then None
    else
      match parse(if w.Missing? then "{}" else w.content)
      case None => None
      case Some(p) => Some(Parsed(Adjust(p.options, sourceMap), p.text))
  }

  // ----- The cache -----

  datatype State = State(options: Option<Options>, text: string, mtime: nat)

  datatype Answer = Answer(next: State, result: Option<Parsed>, notified: bool)

  function Call(parse: Parser, sourceMap: bool, s: State, w: World): Answer {
    if s.options.Some? && Time(w) == s.mtime then Answer(s, Some(Parsed(s.options.value, s.text)), false)
    else
      match Fresh(parse, sourceMap, w)
      case None => Answer(s, None, false)
      case Some(p) =>
        if s.options == Some(p.options) then Answer(s.(mtime := Time(w)), Some(p), false)
        else Answer(State(Some(p.options), p.text, Time(w)), Some(p), s.options.Some?)
  }

  method AdjustOptions(o: Options, sourceMap: bool) returns (r: Options)
    ensures r == Adjust(o, sourceMap)
  {
    r := o.(moduleKind := "node16", moduleResolution := "node16", noEmit := False);
    r := r.(sourceMap := FromBool(sourceMap), inlineSourceMap := FromBool(sourceMap));
    if r.target.None? {
      r := r.(target := Some("es2022"));
    }
    if r.lib.None? {
      r := r.(lib := Some(["lib.es2022.d.ts"]));
    }
    if r.skipLibCheck.Unknown? {
      r := r.(skipLibCheck := True);
    }
    if r.strict.Unknown? {
      r := r.(strict := True);
    }
  }

  class Cache {
    const parse: Parser
    const sourceMap: bool
    var lastModTime: nat
    var cachedOpts: Option<Options>
    var lastText: string

    ghost function Snapshot(): State
      reads this
    {
      State(cachedOpts, lastText, lastModTime)
    }

    constructor (parse: Parser, sourceMap: bool)
      ensures this.parse == parse && this.sourceMap == sourceMap && Snapshot() == Start()
    {
      this.parse := parse;
      this.sourceMap := sourceMap;
      lastModTime, cachedOpts, lastText := 0, None, "";
    }

    /** `notified`: whether the change callback is called. */
    method GetCompilerOptions(w: World) returns (r: Option<Parsed>, notified: bool)
      modifies this
      ensures var a := Call(parse, sourceMap, old(Snapshot()), w);
        Snapshot() == a.next && r == a.result && notified == a.notified
    {
      var currentModTime := if w.Missing? then 0 else w.mtime;
      if cachedOpts.Some? && currentModTime == lastModTime {
        return Some(Parsed(cachedOpts.value, lastText)), false;
      }
      var text := "{}";
      if !w.Missing? {
        if w.Unreadable? {
          return None, false;
        }
        text := w.content;
      }
      var parsed := parse(text);
      if parsed.None? {
        return None, false;
      }
      var newOpts := AdjustOptions(parsed.value.options, sourceMap);
      text := parsed.value.text;
      var hadPreviousOpts := cachedOpts.Some?;
      var optsChanged := true;
      if cachedOpts.Some? && newOpts == cachedOpts.value {
        optsChanged := false;
      }
      if optsChanged {
        cachedOpts := Some(newOpts);
        lastText := text;
      }
      lastModTime := currentModTime;
      notified := hadPreviousOpts && optsChanged;
      r := Some(Parsed(newOpts, text));
    }
  }

  // ----- Runs -----

  function Start(): State {
    State(None, "", 0)
  }

  /** The cache after the first `k` calls. */
  function After(parse: Parser, sourceMap: bool, worlds: seq<World>, k: nat): State
    requires k <= |worlds|
  {
    if k == 0 then Start() else Call(parse, sourceMap, After(parse, sourceMap, worlds, k - 1), worlds[k - 1]).next
  }

  /** The file that was last read with success before call `k`; a call at the same time does not read. */
  function LastRead(parse: Parser, sourceMap: bool, worlds: seq<World>, k: nat): (r: Option<World>)
    requires k <= |worlds|
    ensures r.Some? ==> Fresh(parse, sourceMap, r.value).Some?
  {
    if k == 0 then None
    else
      var before, w := LastRead(parse, sourceMap, worlds, k - 1), worlds[k - 1];
      if before.Some? && Time(before.value) == Time(w) then before
      else if Fresh(parse, sourceMap, w).Some? then Some(w) else before
  }

  /** The call finds the time of the file last read, and does not read. */
  predicate Hits(parse: Parser, sourceMap: bool, worlds: seq<World>, k: nat)
    requires k < |worlds|
  {
    var last := LastRead(parse, sourceMap, worlds, k);
    last.Some? && Time(last.value) == Time(worlds[k])
  }

  /** The file whose reading last changed the options. */
  function Origin(parse: Parser, sourceMap: bool, worlds: seq<World>, k: nat): (r: Option<World>)
    requires k <= |worlds|
    ensures r.Some? ==> Fresh(parse, sourceMap, r.value).Some?
  {
    if k == 0 then None
    else
      var before, now := Origin(parse, sourceMap, worlds, k - 1), Fresh(parse, sourceMap, worlds[k - 1]);
      if !Hits(parse, sourceMap, worlds, k - 1) && now.Some?
        && (before.None? || Fresh(parse, sourceMap, before.value).value.options != now.value.options)
      then Some(worlds[k - 1]) else before
  }

  /** The cache holds the options of the file last read under its time, and the text of the one that set them. */
  ghost predicate Tracks(parse: Parser, sourceMap: bool, worlds: seq<World>, k: nat, s: State)
    requires k <= |worlds|
  {
    var last, origin := LastRead(parse, sourceMap, worlds, k), Origin(parse, sourceMap, worlds, k);
    && (s.options.Some? <==> last.Some?) && (s.options.Some? <==> origin.Some?)
    && (last.Some? ==> s.options == Some(Fresh(parse, sourceMap, last.value).value.options))
    && (last.Some? ==> s.mtime == Time(last.value))
    && (origin.Some? ==> Some(Parsed(s.options.value, s.text)) == Fresh(parse, sourceMap, origin.value))
  }

  lemma {:induction false} CacheTracks(parse: Parser, sourceMap: bool, worlds: seq<World>, k: nat)
    requires k <= |worlds|
    ensures Tracks(parse, sourceMap, worlds, k, After(parse, sourceMap, worlds, k))
  {
    if k > 0 {
      CacheTracks(parse, sourceMap, worlds, k - 1);
    }
  }

  function AnswerAt(parse: Parser, sourceMap: bool, worlds: seq<World>, k: nat): Answer
    requires k < |worlds|
  {
    Call(parse, sourceMap, After(parse, sourceMap, worlds, k), worlds[k])
  }

  /**
    Every history, whatever the times: a call that reads answers as the file does, one that does not answers
    with the options of the file last read, and the callback is called exactly when a file is read whose
    options differ from those of the one read before it.
   */
  lemma CacheAnswers(parse: Parser, sourceMap: bool, worlds: seq<World>, k: nat)
    requires k < |worlds|
    ensures var a, now := AnswerAt(parse, sourceMap, worlds, k), Fresh(parse, sourceMap, worlds[k]);
      var last, origin := LastRead(parse, sourceMap, worlds, k), Origin(parse, sourceMap, worlds, k);
      && (!Hits(parse, sourceMap, worlds, k) ==> a.result == now)
      && (Hits(parse, sourceMap, worlds, k) ==> origin.Some? && a.result == Some(
        Parsed(Fresh(parse, sourceMap, last.value).value.options, Fresh(parse, sourceMap, origin.value).value.text)))
      && (a.notified <==>
        && !Hits(parse, sourceMap, worlds, k) && now.Some? && last.Some?
        && Fresh(parse, sourceMap, last.value).value.options != now.value.options)
  {
    CacheTracks(parse, sourceMap, worlds, k);
  }

  /** A call succeeds exactly when reading the file anew would, and then with the same options. */
  ghost predicate Agrees(parse: Parser, sourceMap: bool, worlds: seq<World>, k: nat)
    requires k < |worlds|
  {
    var a, now := AnswerAt(parse, sourceMap, worlds, k).result, Fresh(parse, sourceMap, worlds[k]);
    a.Some? == now.Some? && (now.Some? ==> a.value.options == now.value.options)
  }

  /** It does when it reads the file or the file last read has those options. */
  lemma OptionsAgreeIff(parse: Parser, sourceMap: bool, worlds: seq<World>, k: nat)
    requires k < |worlds|
    ensures var now, last := Fresh(parse, sourceMap, worlds[k]), LastRead(parse, sourceMap, worlds, k);
      Agrees(parse, sourceMap, worlds, k) <==>
      (Hits(parse, sourceMap, worlds, k) ==>
        now.Some? && Fresh(parse, sourceMap, last.value).value.options == now.value.options)
  {
    CacheAnswers(parse, sourceMap, worlds, k);
  }

  /**
    The answer is the file's own, text and all, exactly when the file was read, or it has the options of the
    file last read and the text of the version that last changed them.
   */
  lemma TextAgrees(parse: Parser, sourceMap: bool, worlds: seq<World>, k: nat)
    requires k < |worlds|
    ensures var now, last := Fresh(parse, sourceMap, worlds[k]), LastRead(parse, sourceMap, worlds, k);
      var origin := Origin(parse, sourceMap, worlds, k);
      && (Hits(parse, sourceMap, worlds, k) ==> origin.Some?)
      && (AnswerAt(parse, sourceMap, worlds, k).result == now <==>
        || !Hits(parse, sourceMap, worlds, k)
        || (Agrees(parse, sourceMap, worlds, k) && now.Some?
          && Fresh(parse, sourceMap, origin.value).value.text == now.value.text))
  {
    CacheAnswers(parse, sourceMap, worlds, k);
  }

  // ----- Whole histories -----

  /** The last file before call `k` that could be read and parsed. */
  function LastGood(parse: Parser, sourceMap: bool, worlds: seq<World>, k: nat): (r: Option<World>)
    requires k <= |worlds|
    ensures r.Some? ==> r.value in worlds && Fresh(parse, sourceMap, r.value).Some?
  {
    if k == 0 then None
    else if Fresh(parse, sourceMap, worlds[k - 1]).Some? then Some(worlds[k - 1])
    else LastGood(parse, sourceMap, worlds, k - 1)
  }

  /** If the file has the time of the last good one, it is good too and has the same options. */
  ghost predicate Telling(parse: Parser, sourceMap: bool, worlds: seq<World>, k: nat)
    requires k < |worlds|
  {
    var now, last := Fresh(parse, sourceMap, worlds[k]), LastGood(parse, sourceMap, worlds, k);
    last.Some? && Time(last.value) == Time(worlds[k]) ==>
      now.Some? && Fresh(parse, sourceMap, last.value).value.options == now.value.options
  }

  ghost predicate AllTelling(parse: Parser, sourceMap: bool, worlds: seq<World>, k: nat)
    requires k <= |worlds|
  {
    forall j :: 0 <= j < k ==> Telling(parse, sourceMap, worlds, j)
  }

  /** Then the file last read may be an older one, but it has the time and the options of the last good one. */
  lemma {:induction false} SeesLastGood(parse: Parser, sourceMap: bool, worlds: seq<World>, k: nat)
    requires k <= |worlds| && AllTelling(parse, sourceMap, worlds, k)
    ensures var read, good := LastRead(parse, sourceMap, worlds, k), LastGood(parse, sourceMap, worlds, k);
      && (read.Some? <==> good.Some?)
      && (read.Some? ==>
        && Time(read.value) == Time(good.value)
        && Fresh(parse, sourceMap, read.value).value.options == Fresh(parse, sourceMap, good.value).value.options)
  {
    if k > 0 {
      SeesLastGood(parse, sourceMap, worlds, k - 1);
      assert Telling(parse, sourceMap, worlds, k - 1);
    }
  }

  lemma AgreesIffTelling(parse: Parser, sourceMap: bool, worlds: seq<World>, k: nat)
    requires k < |worlds| && AllTelling(parse, sourceMap, worlds, k)
    ensures Agrees(parse, sourceMap, worlds, k) <==> Telling(parse, sourceMap, worlds, k)
  {
    SeesLastGood(parse, sourceMap, worlds, k);
    OptionsAgreeIff(parse, sourceMap, worlds, k);
  }

  lemma {:induction false} AgreeingTells(parse: Parser, sourceMap: bool, worlds: seq<World>, k: nat)
    requires k <= |worlds| && forall j :: 0 <= j < |worlds| ==> Agrees(parse, sourceMap, worlds, j)
    ensures AllTelling(parse, sourceMap, worlds, k)
  {
    if k > 0 {
      AgreeingTells(parse, sourceMap, worlds, k - 1);
      AgreesIffTelling(parse, sourceMap, worlds, k - 1);
    }
  }

  /**
    Over a history of edits, deletions and failures, every call agrees with reading the file anew exactly
    when no file with the time of the last good one differs from it in its options.
   */
  lemma CacheAgrees(parse: Parser, sourceMap: bool, worlds: seq<World>)
    ensures (forall k :: 0 <= k < |worlds| ==> Agrees(parse, sourceMap, worlds, k)) <==>
      AllTelling(parse, sourceMap, worlds, |worlds|)
  {
    if forall k :: 0 <= k < |worlds| ==> Agrees(parse, sourceMap, worlds, k) {
      AgreeingTells(parse, sourceMap, worlds, |worlds|);
    }
    if AllTelling(parse, sourceMap, worlds, |worlds|) {
      forall k | 0 <= k < |worlds|
        ensures Agrees(parse, sourceMap, worlds, k)
      {
        AgreesIffTelling(parse, sourceMap, worlds, k);
      }
    }
  }

  /** As long as it does, the callback is called exactly when the options differ from the last good ones. */
  lemma NotifiesOfChange(parse: Parser, sourceMap: bool, worlds: seq<World>, k: nat)
    requires k < |worlds| && AllTelling(parse, sourceMap, worlds, k + 1)
    ensures var now, last := Fresh(parse, sourceMap, worlds[k]), LastGood(parse, sourceMap, worlds, k);
      AnswerAt(parse, sourceMap, worlds, k).notified <==>
        && now.Some? && last.Some?
        && Fresh(parse, sourceMap, last.value).value.options != now.value.options
  {
    assert Telling(parse, sourceMap, worlds, k);
    SeesLastGood(parse, sourceMap, worlds, k);
    CacheAnswers(parse, sourceMap, worlds, k);
  }

  /** The modification time tells what is in the file. */
  ghost predicate Dated(worlds: seq<World>) {
    forall i, j :: 0 <= i < |worlds| && 0 <= j < |worlds| && Time(worlds[i]) == Time(worlds[j]) ==>
      worlds[i] == worlds[j]
  }

  lemma DatedTells(parse: Parser, sourceMap: bool, worlds: seq<World>)
    requires Dated(worlds)
    ensures AllTelling(parse, sourceMap, worlds, |worlds|)
  {
    forall k | 0 <= k < |worlds|
      ensures Telling(parse, sourceMap, worlds, k)
    {
      var last := LastGood(parse, sourceMap, worlds, k);
      if last.Some? && Time(last.value) == Time(worlds[k]) {
        var i :| 0 <= i < |worlds| && worlds[i] == last.value;
      }
    }
  }

  /** An edit that keeps the time is not seen. */
  lemma SameTimeHidesEdit(o: Options, p: Options)
    requires Adjust(o, false) != Adjust(p, false)
    ensures var parse: Parser := t => Some(Parsed(if t == "a" then o else p, t));
      var worlds := [Present(1, "a"), Present(1, "b")];
      && AnswerAt(parse, false, worlds, 1).result == Some(Parsed(Adjust(o, false), "a"))
      && Fresh(parse, false, worlds[1]) == Some(Parsed(Adjust(p, false), "b"))
  {
    var parse: Parser := t => Some(Parsed(if t == "a" then o else p, t));
    var worlds := [Present(1, "a"), Present(1, "b")];
    assert After(parse, false, worlds, 1) == State(Some(Adjust(o, false)), "a", 1);
  }

  /** An edit that keeps the options: the next call returns the new text, the one after it the old. */
  lemma TextGoesStale(o: Options)
    ensures var parse: Parser := t => Some(Parsed(o, t));
      var worlds := [Present(1, "a"), Present(2, "b"), Present(2, "b")];
      && Dated(worlds)
      && AnswerAt(parse, false, worlds, 1).result == Some(Parsed(Adjust(o, false), "b"))
      && AnswerAt(parse, false, worlds, 2).result == Some(Parsed(Adjust(o, false), "a"))
  {
    var parse: Parser := t => Some(Parsed(o, t));
    var worlds := [Present(1, "a"), Present(2, "b"), Present(2, "b")];
    assert After(parse, false, worlds, 1) == State(Some(Adjust(o, false)), "a", 1);
    assert After(parse, false, worlds, 2) == State(Some(Adjust(o, false)), "a", 2);
  }
}
