/**
 * The formatter lifecycle holder of the Maven plugin: builds one formatter per
 * (factory, files) entry, all or nothing, and closes every formatter it holds,
 * gathering every close failure into a single error.
 */
module Formatters {
  import opened Wrappers

  /**
   * A formatter object. `id` is its identity; `equalityKey` stands for what
   * Formatter.equals and hashCode compare, so two objects with one key are equal
   * but distinct. What a formatter does is not part of this model.
   */
  datatype Formatter = Formatter(id: nat, equalityKey: nat)

  datatype FormatterFactory = FormatterFactory(id: nat)

  /** A supplier of the files a formatter will run over, by identity. */
  datatype FilesSupplier = FilesSupplier(id: nat)

  /** Which Java catch clauses a throwable falls under. */
  datatype ThrowableClass =
    | RuntimeException  // caught by `catch (RuntimeException ...)` and by `catch (Exception ...)`
    | CheckedException  // an Exception that is not a RuntimeException: caught by `catch (Exception ...)` only
    | JavaError         // a java.lang.Error: caught by neither

  /** Where a throwable comes from: one raised by a factory or a formatter, told apart by
      an identity, or the wrapper the instance close creates. */
  datatype Origin = Raised(id: nat) | UnableToCloseFormatters

  /** A throwable with its cause and its suppressed list, the part of Java's exception
      chaining the holder works with. */
  datatype Throwable = Throwable(cls: ThrowableClass, origin: Origin, cause: Option<Throwable>, suppressed: seq<Throwable>)
  {
    predicate IsException()
    {
      cls != JavaError
    }

    /** Throwable.addSuppressed: appends to the suppressed list, in place in Java. */
    function AddSuppressed(t: Throwable): Throwable
    {
      this.(suppressed := suppressed + [t])
    }
  }

  /** What a factory does when asked for a formatter. */
  datatype BuildOutcome = Built(formatter: Formatter) | BuildThrew(error: Throwable)

  /** One entry of the factory-to-files map, in the map's iteration order, with the
      outcome of its factory's newFormatter call. */
  datatype Entry = Entry(factory: FormatterFactory, files: FilesSupplier, build: BuildOutcome)

  /** What calling close() on each formatter does: return normally (None) or throw. */
  type CloseBehaviour = Formatter -> Option<Throwable>

  predicate Fatal(closing: CloseBehaviour, f: Formatter)
  {
    closing(f).Some? && !closing(f).value.IsException()
  }

  function Elements(s: seq<Formatter>): set<Formatter>
  {
    set f | f in s
  }

  predicate Distinct(s: seq<Formatter>)
  {
    forall i, j :: 0 <= i < j < |s| ==> s[i] != s[j]
  }

  predicate NoFatal(calls: seq<Formatter>, closing: CloseBehaviour)
  {
    forall i :: 0 <= i < |calls| ==> !Fatal(closing, calls[i])
  }

  /** The formatters of a set whose close() throws. */
  function Failing(formatters: set<Formatter>, closing: CloseBehaviour): set<Formatter>
  {
    set f | f in formatters && closing(f).Some?
  }

  /** What the close() calls of `calls` throw, in call order. */
  function Failures(calls: seq<Formatter>, closing: CloseBehaviour): seq<Throwable>
    decreases |calls|
  {
    if calls == [] then []
    else
      var last := calls[|calls| - 1];
      Failures(calls[..|calls| - 1], closing) + (if closing(last).Some? then [closing(last).value] else [])
  }

  /** The single error reported for a list of failures: the first one, with every later
      one appended to its own suppressed list; nothing when there is no failure. */
  function Merge(failures: seq<Throwable>): Option<Throwable>
  {
    if failures == [] then None
    else Some(failures[0].(suppressed := failures[0].suppressed + failures[1..]))
  }

  /**
   * The close() calls the static close makes over a set: each formatter at most once,
   * and either every formatter with no java.lang.Error along the way, or a prefix that
   * ends at the first call throwing a java.lang.Error, which aborts the loop.
   */
  predicate IsCloseRun(formatters: set<Formatter>, calls: seq<Formatter>, closing: CloseBehaviour)
  {
    && Distinct(calls)
    && Elements(calls) <= formatters
    && ((NoFatal(calls, closing) && Elements(calls) == formatters)
        || (|calls| > 0 && NoFatal(calls[..|calls| - 1], closing) && Fatal(closing, calls[|calls| - 1])))
  }

  /** What the static close throws after the calls `calls`: the java.lang.Error that
      aborted it, or else the merged exceptions. */
  function CloseResult(calls: seq<Formatter>, closing: CloseBehaviour): Option<Throwable>
  {
    if |calls| > 0 && Fatal(closing, calls[|calls| - 1]) then closing(calls[|calls| - 1])
    else Merge(Failures(calls, closing))
  }

  /** What create throws when the factory fails with `openError` and the rollback close
      ends with `closeError`. */
  function RollbackThrown(openError: Throwable, closeError: Option<Throwable>): Throwable
  {
    match closeError
    case None => openError
    case Some(c) => if c.IsException() then openError.AddSuppressed(c) else c
  }

  /** The index of the first entry whose factory throws, or |entries| if none does. */
  function FirstFailure(entries: seq<Entry>): (k: nat)
    ensures k <= |entries|
    ensures forall j :: 0 <= j < k ==> entries[j].build.Built?
    ensures k < |entries| ==> entries[k].build.BuildThrew?
    decreases |entries|
  {
    if entries == [] then 0
    else if entries[0].build.BuildThrew? then 0
    else 1 + FirstFailure(entries[1..])
  }

  predicate AllBuilt(entries: seq<Entry>)
  {
    forall j :: 0 <= j < |entries| ==> entries[j].build.Built?
  }

  /** One binding of the holder's HashMap: the key object it holds and its value. */
  datatype Binding = Binding(formatter: Formatter, files: FilesSupplier)

  /** A java.util.HashMap<Formatter, Supplier>: at most one binding per equality key. */
  type FormatterMap = m: map<nat, Binding> | forall k :: k in m ==> m[k].formatter.equalityKey == k
    witness map[]

  /**
   * HashMap.put: when a key equal to the new one is already held, the held key object
   * stays and only the value is replaced; otherwise the new object is added with its value.
   */
  function Put(m: FormatterMap, f: Formatter, files: FilesSupplier): FormatterMap
  {
    if f.equalityKey in m then m[f.equalityKey := Binding(m[f.equalityKey].formatter, files)]
    else m[f.equalityKey := Binding(f, files)]
  }

  /** HashMap.keySet: the key objects the map holds. */
  function KeySet(m: FormatterMap): set<Formatter>
  {
    set k | k in m :: m[k].formatter
  }

  /** The map create fills: each entry's formatter put with its files, in entry order. */
  function BuildMap(entries: seq<Entry>): FormatterMap
    requires AllBuilt(entries)
    decreases |entries|
  {
    if entries == [] then map[]
    else
      var last := entries[|entries| - 1];
      Put(BuildMap(entries[..|entries| - 1]), last.build.formatter, last.files)
  }

  /** One more built entry: the map grows by one put. */
  lemma BuildMapStep(entries: seq<Entry>, i: nat)
    requires i < |entries| && AllBuilt(entries[..i]) && entries[i].build.Built?
    ensures AllBuilt(entries[..i + 1])
    ensures BuildMap(entries[..i + 1]) == Put(BuildMap(entries[..i]), entries[i].build.formatter, entries[i].files)
  {
    assert entries[..i + 1][..i] == entries[..i];
  }

  /** The formatters the entries' factories built. */
  function BuiltFormatters(entries: seq<Entry>): set<Formatter>
    requires AllBuilt(entries)
  {
    set j | 0 <= j < |entries| :: entries[j].build.formatter
  }

  /** The equality keys of the formatters the entries' factories built. */
  function BuiltKeys(entries: seq<Entry>): set<nat>
    requires AllBuilt(entries)
  {
    set j | 0 <= j < |entries| :: entries[j].build.formatter.equalityKey
  }

  /** No two built formatters are equal. */
  predicate DistinctKeys(entries: seq<Entry>)
    requires AllBuilt(entries)
  {
    forall i, j :: 0 <= i < j < |entries| ==>
      entries[i].build.formatter.equalityKey != entries[j].build.formatter.equalityKey
  }

  class FormattersHolder {
    const formatterToFiles: FormatterMap

    constructor (formatterToFiles: FormatterMap)
      ensures this.formatterToFiles == formatterToFiles
    {
      this.formatterToFiles := formatterToFiles;
    }

    /**
     * create: builds the entries' formatters in order; if a factory throws a
     * RuntimeException, closes the ones built so far and rethrows, with the rollback's
     * close Exception (if any) added to its suppressed list. `factoryCalls` is the
     * factories whose newFormatter was called, in order, and `rollback` the close() calls
     * of the rollback.
     */
    static method Create(entries: seq<Entry>, closing: CloseBehaviour)
        returns (r: Result<FormattersHolder, Throwable>, factoryCalls: seq<FormatterFactory>, rollback: seq<Formatter>)
      ensures var n := if FirstFailure(entries) < |entries| then FirstFailure(entries) + 1 else |entries|;
        && |factoryCalls| == n
        && forall j :: 0 <= j < n ==> factoryCalls[j] == entries[j].factory
      ensures FirstFailure(entries) == |entries| ==>
        && r.Ok?
        && r.value.formatterToFiles == BuildMap(entries)
        && rollback == []
      ensures FirstFailure(entries) < |entries| ==>
        var k := FirstFailure(entries);
        var openError := entries[k].build.error;
        && r.Err?
        && (openError.cls == RuntimeException ==>
              && IsCloseRun(KeySet(BuildMap(entries[..k])), rollback, closing)
              && r.error == RollbackThrown(openError, CloseResult(rollback, closing)))
        && (openError.cls != RuntimeException ==> rollback == [] && r.error == openError)
    {
      var built: FormatterMap := map[];
      factoryCalls, rollback := [], [];
      var i := 0;
      while i < |entries|
        invariant i <= |entries|
        invariant |factoryCalls| == i && forall j :: 0 <= j < i ==> factoryCalls[j] == entries[j].factory
        invariant AllBuilt(entries[..i])
        invariant built == BuildMap(entries[..i])
      {
        var entry := entries[i];
        factoryCalls := factoryCalls + [entry.factory];
        match entry.build {
          case BuildThrew(openError) =>
            if openError.cls == RuntimeException {
              var closeError;
              closeError, rollback := CloseAll(KeySet(built), closing);
              r := Err(RollbackThrown(openError, closeError));
            } else {
              r := Err(openError);
            }
            return;
          case Built(formatter) =>
            BuildMapStep(entries, i);
            built := Put(built, formatter, entry.files);
        }
        i := i + 1;
      }
      assert entries[..i] == entries;
      var holder := new FormattersHolder(built);
      r := Ok(holder);
    }

    /** getFormatters: the key objects of the map, one per equality key, so no two of
        them are equal. */
    function GetFormatters(): (formatters: set<Formatter>)
      ensures forall f :: f in formatters <==>
        f.equalityKey in formatterToFiles && formatterToFiles[f.equalityKey].formatter == f
      ensures forall f, g :: f in formatters && g in formatters && f != g ==> f.equalityKey != g.equalityKey
    {
      KeySet(formatterToFiles)
    }

    /** getFormattersWithFiles: the map itself, whose key set getFormatters gives. */
    function GetFormattersWithFiles(): (m: FormatterMap)
      ensures m == formatterToFiles
      ensures KeySet(m) == GetFormatters()
    {
      formatterToFiles
    }

    /**
     * The instance close: the static close over the held formatters, with an Exception
     * it throws wrapped in a new RuntimeException whose cause it is.
     */
    method Close(closing: CloseBehaviour) returns (thrown: Option<Throwable>, closed: seq<Formatter>)
      ensures IsCloseRun(GetFormatters(), closed, closing)
      ensures thrown.None? <==> CloseResult(closed, closing).None?
      ensures CloseResult(closed, closing).Some? && CloseResult(closed, closing).value.IsException() ==>
        thrown == Some(Throwable(RuntimeException, UnableToCloseFormatters, CloseResult(closed, closing), []))
      ensures CloseResult(closed, closing).Some? && !CloseResult(closed, closing).value.IsException() ==>
        thrown == CloseResult(closed, closing)
    {
      var error;
      error, closed := CloseAll(GetFormatters(), closing);
      match error {
        case None =>
          thrown := None;
        case Some(e) =>
          if e.IsException() {
            thrown := Some(Throwable(RuntimeException, UnableToCloseFormatters, Some(e), []));
          } else {
            thrown := error;
          }
      }
    }

    /**
     * The static close: calls close() on every formatter of the set, whatever the earlier
     * calls threw; the first Exception becomes the error and each later one is added to
     * its suppressed list; the error is thrown once the loop is over. A java.lang.Error
     * is not caught and leaves at once. `closed` is the close() calls made, in order.
     */
    static method CloseAll(formatters: set<Formatter>, closing: CloseBehaviour)
        returns (thrown: Option<Throwable>, closed: seq<Formatter>)
      ensures IsCloseRun(formatters, closed, closing)
      ensures thrown == CloseResult(closed, closing)
    {
      var error: Option<Throwable> := None;
      var remaining := formatters;
      closed := [];
      while remaining != {}
        invariant remaining == formatters - Elements(closed)
        invariant Distinct(closed) && Elements(closed) <= formatters
        invariant NoFatal(closed, closing)
        invariant error == Merge(Failures(closed, closing))
        decreases remaining
      {
        var f :| f in remaining;
        remaining := remaining - {f};
        ghost var before := closed;
        closed := closed + [f];
        CallAppended(before, f, closing);
        match closing(f) {
          case None =>
            assert Failures(closed, closing) == Failures(before, closing);
          case Some(e) =>
            if !e.IsException() {
              FatalCallEndsRun(formatters, before, f, closing);
              thrown := Some(e);
              return;
            }
            assert Failures(closed, closing) == Failures(before, closing) + [e];
            MergeAppend(Failures(before, closing), e);
            if error.None? {
              error := Some(e);
            } else {
              error := Some(error.value.AddSuppressed(e));
            }
        }
      }
      forall f | f in formatters
        ensures f in Elements(closed)
      {
        assert f !in remaining;
      }
      CompleteRun(formatters, closed, closing);
      thrown := error;
    }
  }

  /** One more close() call on a formatter not called yet: the calls stay distinct, and
      the failures gain what that call throws. */
  lemma CallAppended(before: seq<Formatter>, f: Formatter, closing: CloseBehaviour)
    requires Distinct(before) && f !in Elements(before)
    ensures Distinct(before + [f])
    ensures Elements(before + [f]) == Elements(before) + {f}
    ensures (before + [f])[..|before|] == before
    ensures NoFatal(before, closing) && !Fatal(closing, f) ==> NoFatal(before + [f], closing)
    ensures Failures(before + [f], closing) ==
      Failures(before, closing) + (if closing(f).Some? then [closing(f).value] else [])
  {
    var calls := before + [f];
    assert calls[..|before|] == before && calls[|before|] == f;
  }

  /** A close() call that throws a java.lang.Error ends the run, and that Error is what
      the static close throws. */
  lemma FatalCallEndsRun(formatters: set<Formatter>, before: seq<Formatter>, f: Formatter, closing: CloseBehaviour)
    requires Distinct(before) && Elements(before) <= formatters && NoFatal(before, closing)
    requires f in formatters && f !in Elements(before) && Fatal(closing, f)
    ensures IsCloseRun(formatters, before + [f], closing)
    ensures CloseResult(before + [f], closing) == closing(f)
  {
    CallAppended(before, f, closing);
  }

  /** Calls over the whole set with no java.lang.Error form a run that throws the merged
      failures. */
  lemma CompleteRun(formatters: set<Formatter>, calls: seq<Formatter>, closing: CloseBehaviour)
    requires Distinct(calls) && NoFatal(calls, closing) && Elements(calls) == formatters
    ensures IsCloseRun(formatters, calls, closing)
    ensures CloseResult(calls, closing) == Merge(Failures(calls, closing))
  {
    if |calls| > 0 {
      assert !Fatal(closing, calls[|calls| - 1]);
    }
  }

  /** Adding a failure to the merged error: it becomes the error if there was none, and
      is appended to the error's suppressed list otherwise. */
  lemma MergeAppend(failures: seq<Throwable>, e: Throwable)
    ensures Merge(failures + [e]) == if failures == [] then Some(e) else Some(Merge(failures).value.AddSuppressed(e))
  {
    if failures == [] {
      assert e.suppressed + [] == e.suppressed;
    } else {
      var first := failures[0];
      assert (failures + [e])[0] == first;
      assert (failures + [e])[1..] == failures[1..] + [e];
      assert first.suppressed + (failures[1..] + [e]) == (first.suppressed + failures[1..]) + [e];
    }
  }

  /** The calls before the last one: still distinct, and without the last formatter. */
  lemma SplitLastCall(calls: seq<Formatter>)
    requires Distinct(calls) && calls != []
    ensures Distinct(calls[..|calls| - 1])
    ensures calls[|calls| - 1] !in Elements(calls[..|calls| - 1])
    ensures Elements(calls) == Elements(calls[..|calls| - 1]) + {calls[|calls| - 1]}
  {
    assert calls == calls[..|calls| - 1] + [calls[|calls| - 1]];
  }

  /** A sequence without repetitions has as many elements as its set. */
  lemma {:induction false} DistinctCardinality(s: seq<Formatter>)
    requires Distinct(s)
    ensures |Elements(s)| == |s|
    decreases |s|
  {
    if s != [] {
      SplitLastCall(s);
      DistinctCardinality(s[..|s| - 1]);
    }
  }

  /** When no close() in the set throws a java.lang.Error, the static close calls close()
      on every formatter of the set, exactly once each. */
  lemma ClosesEveryFormatterOnce(formatters: set<Formatter>, calls: seq<Formatter>, closing: CloseBehaviour)
    requires IsCloseRun(formatters, calls, closing)
    requires forall f :: f in formatters ==> !Fatal(closing, f)
    ensures Elements(calls) == formatters
    ensures |calls| == |formatters|
    ensures forall i, j :: 0 <= i < j < |calls| ==> calls[i] != calls[j]
  {
    if !(NoFatal(calls, closing) && Elements(calls) == formatters) {
      assert false;
    }
    DistinctCardinality(calls);
  }

  /** One thrown error per failing close() call: none is dropped or repeated. */
  lemma {:induction false} FailuresCount(calls: seq<Formatter>, closing: CloseBehaviour)
    requires Distinct(calls)
    ensures |Failures(calls, closing)| == |Failing(Elements(calls), closing)|
    decreases |calls|
  {
    if calls != [] {
      var init, last := calls[..|calls| - 1], calls[|calls| - 1];
      SplitLastCall(calls);
      FailuresCount(init, closing);
      if closing(last).Some? {
        assert Failing(Elements(calls), closing) == Failing(Elements(init), closing) + {last};
      } else {
        assert Failing(Elements(calls), closing) == Failing(Elements(init), closing);
      }
    }
  }

  /** The static close throws nothing when no close() throws, the empty set included;
      otherwise it throws the first failure in call order carrying all the later ones,
      one per failing formatter, after its own suppressed list. */
  lemma CloseReportsEveryFailure(formatters: set<Formatter>, calls: seq<Formatter>, closing: CloseBehaviour)
    requires IsCloseRun(formatters, calls, closing)
    requires forall f :: f in formatters ==> !Fatal(closing, f)
    ensures CloseResult(calls, closing).None? <==> Failing(formatters, closing) == {}
    ensures CloseResult(calls, closing).Some? ==>
      var failures := Failures(calls, closing);
      && |failures| == |Failing(formatters, closing)|
      && CloseResult(calls, closing).value.cls == failures[0].cls
      && CloseResult(calls, closing).value.origin == failures[0].origin
      && CloseResult(calls, closing).value.suppressed == failures[0].suppressed + failures[1..]
  {
    ClosesEveryFormatterOnce(formatters, calls, closing);
    FailuresCount(calls, closing);
  }

  /** The error the static close throws is the one the first failing close() in call
      order threw, with its own suppressed list kept at the front. */
  lemma {:induction false} FirstFailureIsPrimary(calls: seq<Formatter>, closing: CloseBehaviour, i: nat)
    requires NoFatal(calls, closing)
    requires i < |calls| && closing(calls[i]).Some?
    requires forall j :: 0 <= j < i ==> closing(calls[j]).None?
    ensures Failures(calls, closing) != [] && Failures(calls, closing)[0] == closing(calls[i]).value
    ensures CloseResult(calls, closing).Some?
    ensures CloseResult(calls, closing).value.origin == closing(calls[i]).value.origin
    ensures CloseResult(calls, closing).value.cls == closing(calls[i]).value.cls
    ensures CloseResult(calls, closing).value.suppressed[..|closing(calls[i]).value.suppressed|]
         == closing(calls[i]).value.suppressed
    decreases |calls|
  {
    var init := calls[..|calls| - 1];
    if i < |calls| - 1 {
      FirstFailureIsPrimary(init, closing, i);
    } else {
      NoneFailBefore(init, closing);
    }
  }

  /** No failure is recorded for calls whose close() all return normally. */
  lemma {:induction false} NoneFailBefore(calls: seq<Formatter>, closing: CloseBehaviour)
    requires forall j :: 0 <= j < |calls| ==> closing(calls[j]).None?
    ensures Failures(calls, closing) == []
    decreases |calls|
  {
    if calls != [] {
      NoneFailBefore(calls[..|calls| - 1], closing);
    }
  }

  /** The rollback of create, when no close() throws a java.lang.Error: the thrown error is
      the factory's, and it gains exactly one suppressed error, the first close failure
      carrying the others, or none when every close() succeeds. */
  lemma RollbackAttachesOneError(openError: Throwable, calls: seq<Formatter>, closing: CloseBehaviour)
    requires NoFatal(calls, closing)
    ensures var thrown := RollbackThrown(openError, CloseResult(calls, closing));
      var failures := Failures(calls, closing);
      && thrown.cls == openError.cls && thrown.origin == openError.origin && thrown.cause == openError.cause
      && (failures == [] ==> thrown == openError)
      && (failures != [] ==>
            thrown.suppressed == openError.suppressed + [failures[0].(suppressed := failures[0].suppressed + failures[1..])])
  {
    FailuresAreExceptions(calls, closing);
    var failures := Failures(calls, closing);
    if failures != [] {
      assert failures[0] in failures;
    }
  }

  /** When no close() throws a java.lang.Error, every recorded failure is an Exception. */
  lemma {:induction false} FailuresAreExceptions(calls: seq<Formatter>, closing: CloseBehaviour)
    requires NoFatal(calls, closing)
    ensures forall t :: t in Failures(calls, closing) ==> t.IsException()
    ensures |calls| > 0 ==> !Fatal(closing, calls[|calls| - 1])
    decreases |calls|
  {
    if calls != [] {
      FailuresAreExceptions(calls[..|calls| - 1], closing);
    }
  }

  /** Every key of the built map is the equality key of a built formatter, and every
      object it holds is one the factories built. */
  lemma {:induction false} BuildMapKeys(entries: seq<Entry>)
    requires AllBuilt(entries)
    ensures BuildMap(entries).Keys == BuiltKeys(entries)
    ensures KeySet(BuildMap(entries)) <= BuiltFormatters(entries)
    decreases |entries|
  {
    if entries != [] {
      var init, last := entries[..|entries| - 1], entries[|entries| - 1];
      BuildMapKeys(init);
      assert forall j :: 0 <= j < |init| ==> init[j] == entries[j];
      assert BuiltKeys(entries) == BuiltKeys(init) + {last.build.formatter.equalityKey} by {
        forall k | k in BuiltKeys(entries)
          ensures k in BuiltKeys(init) + {last.build.formatter.equalityKey}
        {
          var j :| 0 <= j < |entries| && entries[j].build.formatter.equalityKey == k;
          if j < |entries| - 1 {
            assert init[j] == entries[j];
          }
        }
      }
      assert BuiltFormatters(entries) == BuiltFormatters(init) + {last.build.formatter} by {
        forall f | f in BuiltFormatters(entries)
          ensures f in BuiltFormatters(init) + {last.build.formatter}
        {
          var j :| 0 <= j < |entries| && entries[j].build.formatter == f;
          if j < |entries| - 1 {
            assert init[j] == entries[j];
          }
        }
      }
      var m := BuildMap(init);
      forall f | f in KeySet(BuildMap(entries))
        ensures f in KeySet(m) + {last.build.formatter}
      {
        var k :| k in BuildMap(entries) && BuildMap(entries)[k].formatter == f;
        if k != last.build.formatter.equalityKey || last.build.formatter.equalityKey in m {
          assert m[k].formatter == f;
        }
      }
    }
  }

  /** The object the built map holds for an equality key is the first one built with that
      key: a later equal formatter does not replace it. */
  lemma {:induction false} BuildMapKeepsFirstObject(entries: seq<Entry>, j: nat)
    requires AllBuilt(entries)
    requires j < |entries|
    requires forall i :: 0 <= i < j ==> entries[i].build.formatter.equalityKey != entries[j].build.formatter.equalityKey
    ensures entries[j].build.formatter.equalityKey in BuildMap(entries)
    ensures BuildMap(entries)[entries[j].build.formatter.equalityKey].formatter == entries[j].build.formatter
    decreases |entries|
  {
    var init := entries[..|entries| - 1];
    var key := entries[j].build.formatter.equalityKey;
    if j < |entries| - 1 {
      BuildMapKeepsFirstObject(init, j);
    } else {
      BuildMapKeys(init);
    }
  }

  /** The value the built map holds for an equality key is the files of the last entry
      that built a formatter with that key: HashMap.put replaces the value. */
  lemma {:induction false} BuildMapSendsToLastFiles(entries: seq<Entry>, j: nat)
    requires AllBuilt(entries)
    requires j < |entries|
    requires forall j' :: j < j' < |entries| ==> entries[j'].build.formatter.equalityKey != entries[j].build.formatter.equalityKey
    ensures entries[j].build.formatter.equalityKey in BuildMap(entries)
    ensures BuildMap(entries)[entries[j].build.formatter.equalityKey].files == entries[j].files
    decreases |entries|
  {
    if j < |entries| - 1 {
      BuildMapSendsToLastFiles(entries[..|entries| - 1], j);
    }
  }

  /** When no two built formatters are equal, the holder create returns holds every built
      formatter, each bound to the files of the entry that built it. */
  lemma CreateMapsEachFormatterToItsFiles(entries: seq<Entry>)
    requires AllBuilt(entries)
    requires DistinctKeys(entries)
    ensures KeySet(BuildMap(entries)) == BuiltFormatters(entries)
    ensures forall j :: 0 <= j < |entries| ==>
      var f := entries[j].build.formatter;
      f.equalityKey in BuildMap(entries) && BuildMap(entries)[f.equalityKey] == Binding(f, entries[j].files)
  {
    BuildMapKeys(entries);
    forall j | 0 <= j < |entries|
      ensures var f := entries[j].build.formatter;
        f.equalityKey in BuildMap(entries) && BuildMap(entries)[f.equalityKey] == Binding(f, entries[j].files)
    {
      BuildMapKeepsFirstObject(entries, j);
      BuildMapSendsToLastFiles(entries, j);
    }
    forall f | f in BuiltFormatters(entries)
      ensures f in KeySet(BuildMap(entries))
    {
      var j :| 0 <= j < |entries| && entries[j].build.formatter == f;
      BuildMapKeepsFirstObject(entries, j);
    }
  }

  /** A formatter built after an equal but distinct one is not held by the map: put keeps
      the key object already there. */
  lemma LaterEqualFormatterIsNotHeld(entries: seq<Entry>, i: nat, j: nat)
    requires AllBuilt(entries)
    requires i < j < |entries|
    requires forall i' :: 0 <= i' < i ==> entries[i'].build.formatter.equalityKey != entries[i].build.formatter.equalityKey
    requires entries[i].build.formatter.equalityKey == entries[j].build.formatter.equalityKey
    requires entries[i].build.formatter != entries[j].build.formatter
    ensures entries[j].build.formatter !in KeySet(BuildMap(entries))
  {
    BuildMapKeepsFirstObject(entries, i);
  }

  /** So neither the rollback of create nor the close of the holder ever calls close() on
      such a formatter. */
  lemma LaterEqualFormatterIsNeverClosed(entries: seq<Entry>, i: nat, j: nat, calls: seq<Formatter>, closing: CloseBehaviour)
    requires AllBuilt(entries)
    requires i < j < |entries|
    requires forall i' :: 0 <= i' < i ==> entries[i'].build.formatter.equalityKey != entries[i].build.formatter.equalityKey
    requires entries[i].build.formatter.equalityKey == entries[j].build.formatter.equalityKey
    requires entries[i].build.formatter != entries[j].build.formatter
    requires IsCloseRun(KeySet(BuildMap(entries)), calls, closing)
    ensures entries[j].build.formatter !in calls
  {
    LaterEqualFormatterIsNotHeld(entries, i, j);
    assert entries[j].build.formatter !in Elements(calls);
  }

  /** A close run over the key set of a built map, with no java.lang.Error, closes each
      held key object once; with no two built formatters equal, those are all of them. */
  lemma CloseRunOverBuiltMap(built: seq<Entry>, calls: seq<Formatter>, closing: CloseBehaviour)
    requires AllBuilt(built)
    requires IsCloseRun(KeySet(BuildMap(built)), calls, closing)
    requires forall j :: 0 <= j < |built| ==> !Fatal(closing, built[j].build.formatter)
    ensures Elements(calls) == KeySet(BuildMap(built))
    ensures forall i, j :: 0 <= i < j < |calls| ==> calls[i] != calls[j]
    ensures DistinctKeys(built) ==> Elements(calls) == BuiltFormatters(built)
  {
    BuildMapKeys(built);
    ClosesEveryFormatterOnce(KeySet(BuildMap(built)), calls, closing);
    if DistinctKeys(built) {
      CreateMapsEachFormatterToItsFiles(built);
    }
  }

  /** After a factory failure caught by create, when no close() throws a java.lang.Error,
      the rollback closes every formatter the map holds exactly once, and no other; when no
      two built formatters are equal, that is every formatter built before the failing entry. */
  lemma RollbackClosesEveryBuiltFormatter(entries: seq<Entry>, rollback: seq<Formatter>, closing: CloseBehaviour)
    requires FirstFailure(entries) < |entries|
    requires IsCloseRun(KeySet(BuildMap(entries[..FirstFailure(entries)])), rollback, closing)
    requires forall j :: 0 <= j < FirstFailure(entries) ==> !Fatal(closing, entries[j].build.formatter)
    ensures Elements(rollback) == KeySet(BuildMap(entries[..FirstFailure(entries)]))
    ensures forall i, j :: 0 <= i < j < |rollback| ==> rollback[i] != rollback[j]
    ensures DistinctKeys(entries[..FirstFailure(entries)]) ==>
      Elements(rollback) == BuiltFormatters(entries[..FirstFailure(entries)])
  {
    var k := FirstFailure(entries);
    var built := entries[..k];
    assert forall j :: 0 <= j < k ==> built[j] == entries[j];
    CloseRunOverBuiltMap(built, rollback, closing);
  }
}
