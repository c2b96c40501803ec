/** Every run of the download broker answers each request exactly once and starts requests in order. */
module DownloadRuns {
  import opened Text
  import opened Downloads

  // Columns

  function Column<T>(items: seq<T>, of: T -> nat): (column: seq<nat>)
    ensures |column| == |items| && forall i | 0 <= i < |items| :: column[i] == of(items[i])
  {
    seq(|items|, i requires 0 <= i < |items| => of(items[i]))
  }

  const QUEUED_CALLBACK: Queued -> nat := (q: Queued) => q.callback
  const ACTIVE_CALLBACK: Active -> nat := (a: Active) => a.callback
  const CALLED: Call -> nat := (c: Call) => c.callback
  const QUEUED_ID: Queued -> nat := (q: Queued) => q.id
  const ACTIVE_ID: Active -> nat := (a: Active) => a.id

  lemma ColumnConcat<T>(a: seq<T>, b: seq<T>, of: T -> nat)
    ensures Column(a + b, of) == Column(a, of) + Column(b, of)
  {
  }

  lemma ColumnWithout<T>(items: seq<T>, index: nat, of: T -> nat)
    requires index < |items|
    ensures Column(Without(items, index), of) == Without(Column(items, of), index)
  {
    assert |Without(items, index)| == |items| - 1;
  }

  lemma MultisetWithout(c: seq<nat>, index: nat)
    requires index < |c|
    ensures multiset(Without(c, index)) + multiset{c[index]} == multiset(c)
  {
    assert c == c[..index] + [c[index]] + c[index + 1..];
  }

  /** Increasing, and below `bound`. */
  predicate Rising(s: seq<nat>, bound: nat) {
    (forall i, j | 0 <= i < j < |s| :: s[i] < s[j]) && forall i | 0 <= i < |s| :: s[i] < bound
  }

  // Worlds

  /** A download that the browser has started, and the request that it was taken for, if any waited. */
  datatype Download = Download(url: string, callback: Option<Callback>)

  /** The broker, the paths asked for by callback, the callbacks in the order they were started, the number of
      requests since the last reset; all downloads of the browser, numbered in the order they were started; and
      the numbers of those whose requests are active. */
  datatype World = World(b: Broker, paths: seq<string>, started: seq<Callback>, asked: nat,
                         downloads: seq<Download>, pending: seq<nat>)

  datatype Event =
    | Ask(path: string, refused: Option<string>)
    | Start(url: string)
    | Complete(download: nat, success: bool)
    | Abort(id: nat, error: string)
    | CloseBrowser

  const START := World(Broker(0, [], [], []), [], [], 0, [], [])

  function Drop(pending: seq<nat>, index: nat): seq<nat> {
    if index < |pending| then Without(pending, index) else pending
  }

  /** The browser tells the address of a download, and nothing else of it. */
  function CompleteUrl(w: World, url: string, success: bool): World {
    w.(b := Completed(w.b, url, success), pending := Drop(w.pending, UrlIndex(w.b.active, url)))
  }

  function Step(w: World, e: Event): World {
    match e
    case Ask(path, refused) =>
      var b := Begin(w.b, path, |w.paths|, refused).0;
      if refused.Some? then w.(b := b) else w.(b := b, paths := w.paths + [path], asked := w.asked + 1)
    case Start(url) =>
      var asked := w.b.queued != [];
      w.(b := Started(w.b, url).0, started := w.started + if asked then [w.b.queued[0].callback] else [],
         downloads := w.downloads + [Download(url, if asked then Some(w.b.queued[0].callback) else None)],
         pending := w.pending + if asked then [|w.downloads|] else [])
    case Complete(download, success) =>
      if download < |w.downloads| then CompleteUrl(w, w.downloads[download].url, success) else w
    case Abort(id, error) =>
      var ended := if QueuedIndex(w.b.queued, id) < |w.b.queued| then |w.pending| else ActiveIndex(w.b.active, id);
      w.(b := Cancel(w.b, id, error), pending := Drop(w.pending, ended))
    case CloseBrowser => w.(b := Reset(w.b), asked := 0, pending := [])
  }

  function Run(w: World, events: seq<Event>): World
    decreases |events|
  {
    if events == [] then w else Run(Step(w, events[0]), events[1..])
  }

  function Waiting(queued: seq<Queued>): multiset<Callback> {
    multiset(Column(queued, QUEUED_CALLBACK))
  }

  function Running(active: seq<Active>): multiset<Callback> {
    multiset(Column(active, ACTIVE_CALLBACK))
  }

  function Answered(calls: seq<Call>): multiset<Callback> {
    multiset(Column(calls, CALLED))
  }

  /** All callbacks: queued, active, called. */
  function All(b: Broker): multiset<Callback> {
    Waiting(b.queued) + Running(b.active) + Answered(b.calls)
  }

  function FirstCallbacks(n: nat): (callbacks: multiset<Callback>)
    ensures forall c: Callback :: callbacks[c] == if c < n then 1 else 0
  {
    if n == 0 then multiset{} else FirstCallbacks(n - 1) + multiset{n - 1 as Callback}
  }

  /** Each callback handed over is in exactly one place, once. */
  predicate OncePlaced(w: World) {
    All(w.b) == FirstCallbacks(|w.paths|)
  }

  predicate QueuedKept(queued: seq<Queued>, paths: seq<string>) {
    forall i | 0 <= i < |queued| :: queued[i].callback < |paths| && queued[i].path == paths[queued[i].callback]
  }

  predicate ActiveKept(active: seq<Active>, paths: seq<string>) {
    forall i | 0 <= i < |active| :: active[i].callback < |paths| && active[i].path == paths[active[i].callback]
  }

  predicate CallsKept(calls: seq<Call>, paths: seq<string>) {
    forall i | 0 <= i < |calls| && calls[i].result.Ok? ::
      calls[i].callback < |paths| && calls[i].result.value == paths[calls[i].callback]
  }

  /** A download goes to, and a success reports, the path that was asked for. */
  predicate PathsKept(w: World) {
    QueuedKept(w.b.queued, w.paths) && ActiveKept(w.b.active, w.paths) && CallsKept(w.b.calls, w.paths)
  }

  function Ids(b: Broker): seq<nat> {
    Column(b.active, ACTIVE_ID) + Column(b.queued, QUEUED_ID)
  }

  /** Until the counter saturates, pending downloads have different ids, given out in order. */
  predicate IdsDiffer(w: World) {
    && w.b.lastId == (if w.asked <= MAX_ID then w.asked else MAX_ID)
    && (w.asked <= MAX_ID ==> Rising(Ids(w.b), w.b.lastId + 1))
  }

  // Placed once

  lemma WaitingOneMore(queued: seq<Queued>, q: Queued)
    ensures Waiting(queued + [q]) == Waiting(queued) + multiset{q.callback}
  {
    ColumnConcat(queued, [q], QUEUED_CALLBACK);
  }

  lemma WaitingOneLess(queued: seq<Queued>, index: nat)
    requires index < |queued|
    ensures Waiting(Without(queued, index)) + multiset{queued[index].callback} == Waiting(queued)
  {
    ColumnWithout(queued, index, QUEUED_CALLBACK);
    MultisetWithout(Column(queued, QUEUED_CALLBACK), index);
  }

  lemma RunningOneMore(active: seq<Active>, a: Active)
    ensures Running(active + [a]) == Running(active) + multiset{a.callback}
  {
    ColumnConcat(active, [a], ACTIVE_CALLBACK);
  }

  lemma RunningOneLess(active: seq<Active>, index: nat)
    requires index < |active|
    ensures Running(Without(active, index)) + multiset{active[index].callback} == Running(active)
  {
    ColumnWithout(active, index, ACTIVE_CALLBACK);
    MultisetWithout(Column(active, ACTIVE_CALLBACK), index);
  }

  lemma AnsweredOneMore(calls: seq<Call>, call: Call)
    ensures Answered(calls + [call]) == Answered(calls) + multiset{call.callback}
  {
    ColumnConcat(calls, [call], CALLED);
  }

  lemma BeginPlaces(b: Broker, path: string, callback: Callback)
    ensures All(Begin(b, path, callback, None).0) == All(b) + multiset{callback}
  {
    hide Waiting, Running, Answered;
    WaitingOneMore(b.queued, Queued(NextId(b.lastId), path, callback));
  }

  lemma StartedMoves(b: Broker, url: string)
    ensures All(Started(b, url).0) == All(b)
  {
    hide Waiting, Running, Answered;
    if b.queued != [] {
      var first := b.queued[0];
      WaitingOneLess(b.queued, 0);
      assert Without(b.queued, 0) == b.queued[1..];
      RunningOneMore(b.active, Active(first.id, url, first.path, first.callback));
    }
  }

  lemma CompletedMoves(b: Broker, url: string, success: bool)
    ensures All(Completed(b, url, success)) == All(b)
  {
    hide Waiting, Running, Answered, Without;
    var index := UrlIndex(b.active, url);
    if index < |b.active| {
      RunningOneLess(b.active, index);
      var result := if success then Ok(b.active[index].path) else Err(INCOMPLETE);
      AnsweredOneMore(b.calls, Call(b.active[index].callback, result));
    }
  }

  lemma CancelMoves(b: Broker, id: nat, error: string)
    ensures All(Cancel(b, id, error)) == All(b)
  {
    hide Waiting, Running, Answered, Without;
    var q, a := QueuedIndex(b.queued, id), ActiveIndex(b.active, id);
    if q < |b.queued| {
      WaitingOneLess(b.queued, q);
      AnsweredOneMore(b.calls, Call(b.queued[q].callback, Err(error)));
    } else if a < |b.active| {
      RunningOneLess(b.active, a);
      AnsweredOneMore(b.calls, Call(b.active[a].callback, Err(error)));
    }
  }

  lemma {:induction false} QueuedCallsColumn(queued: seq<Queued>)
    ensures Column(QueuedCalls(queued), CALLED) == Column(queued, QUEUED_CALLBACK)
    ensures forall i | 0 <= i < |QueuedCalls(queued)| :: QueuedCalls(queued)[i].result.Err?
  {
    if queued != [] {
      QueuedCallsColumn(queued[1..]);
    }
  }

  lemma {:induction false} ActiveCallsColumn(active: seq<Active>)
    ensures Column(ActiveCalls(active), CALLED) == Column(active, ACTIVE_CALLBACK)
    ensures forall i | 0 <= i < |ActiveCalls(active)| :: ActiveCalls(active)[i].result.Err?
  {
    if active != [] {
      ActiveCallsColumn(active[1..]);
    }
  }

  lemma AnsweredConcat(a: seq<Call>, b: seq<Call>)
    ensures Answered(a + b) == Answered(a) + Answered(b)
  {
    ColumnConcat(a, b, CALLED);
  }

  lemma ResetMoves(b: Broker)
    ensures All(Reset(b)) == All(b)
  {
    QueuedCallsColumn(b.queued);
    ActiveCallsColumn(b.active);
    assert Answered(QueuedCalls(b.queued)) == Waiting(b.queued) && Answered(ActiveCalls(b.active)) == Running(b.active);
    assert Waiting([]) == multiset{} && Running([]) == multiset{};
    hide Waiting, Running, Answered;
    AnsweredConcat(b.calls, QueuedCalls(b.queued));
    AnsweredConcat(b.calls + QueuedCalls(b.queued), ActiveCalls(b.active));
  }

  lemma StepPlacesOnce(w: World, e: Event)
    requires OncePlaced(w)
    ensures OncePlaced(Step(w, e))
  {
    hide All, Begin, Started, Completed, Cancel, Reset;
    match e
    case Ask(path, refused) =>
      if refused.None? {
        BeginPlaces(w.b, path, |w.paths|);
      } else {
        RefusedKeeps(w.b, path, |w.paths|, refused);
      }
    case Start(url) => StartedMoves(w.b, url);
    case Complete(download, success) =>
      if download < |w.downloads| {
        CompletedMoves(w.b, w.downloads[download].url, success);
      }
    case Abort(id, error) => CancelMoves(w.b, id, error);
    case CloseBrowser => ResetMoves(w.b);
  }

  lemma RefusedKeeps(b: Broker, path: string, callback: Callback, refused: Option<string>)
    requires refused.Some?
    ensures Begin(b, path, callback, refused) == (b, Err(refused.value))
  {
  }

  // In order

  lemma RisingWithout(s: seq<nat>, index: nat, bound: nat)
    requires Rising(s, bound) && index < |s|
    ensures Rising(Without(s, index), bound)
  {
    var t := Without(s, index);
    assert forall i | 0 <= i < |t| :: t[i] == s[if i < index then i else i + 1];
    hide Without;
  }

  lemma RisingAppend(s: seq<nat>, n: nat, more: nat)
    requires Rising(s, n) && n < more
    ensures Rising(s + [n], more)
  {
  }

  lemma WithoutLater<T>(a: seq<T>, b: seq<T>, index: nat)
    requires index < |b|
    ensures a + Without(b, index) == Without(a + b, |a| + index)
  {
  }

  lemma WithoutEarlier<T>(a: seq<T>, b: seq<T>, index: nat)
    requires index < |a|
    ensures Without(a, index) + b == Without(a + b, index)
  {
  }

  /** The callbacks started and those that wait. */
  function Line(w: World): seq<nat> {
    w.started + Column(w.b.queued, QUEUED_CALLBACK)
  }

  /** Requests are started in the order in which they were made, and those that wait come after. */
  predicate LineUp(w: World) {
    Rising(Line(w), |w.paths|)
  }

  lemma AskLinesUp(w: World, path: string)
    requires LineUp(w)
    ensures LineUp(Step(w, Ask(path, None)))
  {
    var q := Queued(NextId(w.b.lastId), path, |w.paths|);
    ColumnConcat(w.b.queued, [q], QUEUED_CALLBACK);
    assert Column([q], QUEUED_CALLBACK) == [|w.paths|];
    hide Column;
    Assoc(w.started, Column(w.b.queued, QUEUED_CALLBACK), [|w.paths|]);
    RisingAppend(Line(w), |w.paths|, |w.paths| + 1);
  }

  lemma StartLinesUp(w: World, url: string)
    requires LineUp(w)
    ensures LineUp(Step(w, Start(url)))
  {
    if w.b.queued != [] {
      assert [w.b.queued[0]] + w.b.queued[1..] == w.b.queued;
      ColumnConcat([w.b.queued[0]], w.b.queued[1..], QUEUED_CALLBACK);
      assert Column([w.b.queued[0]], QUEUED_CALLBACK) == [w.b.queued[0].callback];
      hide Column;
      Assoc(w.started, [w.b.queued[0].callback], Column(w.b.queued[1..], QUEUED_CALLBACK));
      assert Line(Step(w, Start(url))) == Line(w);
    } else {
      assert w.started + [] == w.started;
    }
  }

  lemma LineAfterAbort(w: World, id: nat, error: string)
    ensures var q := QueuedIndex(w.b.queued, id);
            Line(Step(w, Abort(id, error))) == if q < |w.b.queued| then Without(Line(w), |w.started| + q) else Line(w)
  {
    hide Column, Without;
    var q := QueuedIndex(w.b.queued, id);
    if q < |w.b.queued| {
      ColumnWithout(w.b.queued, q, QUEUED_CALLBACK);
      WithoutLater(w.started, Column(w.b.queued, QUEUED_CALLBACK), q);
    }
  }

  lemma LineLength(w: World)
    ensures |Line(w)| == |w.started| + |w.b.queued|
  {
  }

  lemma AbortLinesUp(w: World, id: nat, error: string)
    requires LineUp(w)
    ensures LineUp(Step(w, Abort(id, error)))
  {
    hide Line, Column, Without, Rising, Cancel, QueuedIndex;
    LineLength(w);
    LineAfterAbort(w, id, error);
    var q := QueuedIndex(w.b.queued, id);
    if q < |w.b.queued| {
      RisingWithout(Line(w), |w.started| + q, |w.paths|);
    }
  }

  lemma CloseLinesUp(w: World)
    requires LineUp(w)
    ensures LineUp(Step(w, CloseBrowser))
  {
    var after := Step(w, CloseBrowser);
    assert Line(after) == w.started;
    assert forall i | 0 <= i < |w.started| :: Line(w)[i] == w.started[i];
    hide Line, Column;
  }

  lemma StepLinesUp(w: World, e: Event)
    requires LineUp(w)
    ensures LineUp(Step(w, e))
  {
    match e
    case Ask(path, refused) => if refused.None? { AskLinesUp(w, path); }
    case Start(url) => StartLinesUp(w, url);
    case Complete(download, success) =>
    case Abort(id, error) => AbortLinesUp(w, id, error);
    case CloseBrowser => CloseLinesUp(w);
  }

  // Ids

  lemma AskIds(b: Broker, path: string, callback: Callback)
    requires b.lastId < MAX_ID && Rising(Ids(b), b.lastId + 1)
    ensures Rising(Ids(Begin(b, path, callback, None).0), b.lastId + 2)
  {
    var q := Queued(b.lastId + 1, path, callback);
    ColumnConcat(b.queued, [q], QUEUED_ID);
    assert Column([q], QUEUED_ID) == [b.lastId + 1];
    hide Column, Rising;
    Assoc(Column(b.active, ACTIVE_ID), Column(b.queued, QUEUED_ID), [b.lastId + 1]);
    RisingAppend(Ids(b), b.lastId + 1, b.lastId + 2);
  }

  lemma StartIds(b: Broker, url: string)
    ensures Ids(Started(b, url).0) == Ids(b)
  {
    if b.queued != [] {
      var first := b.queued[0];
      var a := Active(first.id, url, first.path, first.callback);
      assert [first] + b.queued[1..] == b.queued;
      ColumnConcat([first], b.queued[1..], QUEUED_ID);
      ColumnConcat(b.active, [a], ACTIVE_ID);
      assert Column([first], QUEUED_ID) == [first.id] == Column([a], ACTIVE_ID);
      hide Column;
      Assoc(Column(b.active, ACTIVE_ID), [first.id], Column(b.queued[1..], QUEUED_ID));
    }
  }

  lemma RemoveActiveIds(b: Broker, index: nat, bound: nat)
    requires index < |b.active| && Rising(Ids(b), bound)
    ensures Rising(Ids(b.(active := Without(b.active, index))), bound)
  {
    assert |Ids(b)| >= |b.active|;
    ColumnWithout(b.active, index, ACTIVE_ID);
    hide Rising, Column, Without;
    WithoutEarlier(Column(b.active, ACTIVE_ID), Column(b.queued, QUEUED_ID), index);
    RisingWithout(Ids(b), index, bound);
  }

  lemma RemoveQueuedIds(b: Broker, index: nat, bound: nat)
    requires index < |b.queued| && Rising(Ids(b), bound)
    ensures Rising(Ids(b.(queued := Without(b.queued, index))), bound)
  {
    assert |Ids(b)| == |b.active| + |b.queued|;
    ColumnWithout(b.queued, index, QUEUED_ID);
    hide Rising, Without, Column;
    WithoutLater(Column(b.active, ACTIVE_ID), Column(b.queued, QUEUED_ID), index);
    RisingWithout(Ids(b), |b.active| + index, bound);
  }

  lemma IdsOnly(b: Broker, c: Broker)
    requires b.active == c.active && b.queued == c.queued
    ensures Ids(b) == Ids(c)
  {
  }

  lemma CompleteIds(b: Broker, url: string, success: bool, bound: nat)
    requires Rising(Ids(b), bound)
    ensures Rising(Ids(Completed(b, url, success)), bound)
  {
    hide Ids, Rising, Without;
    var index := UrlIndex(b.active, url);
    if index < |b.active| {
      RemoveActiveIds(b, index, bound);
      IdsOnly(b.(active := Without(b.active, index)), Completed(b, url, success));
    }
  }

  lemma AbortIds(b: Broker, id: nat, error: string, bound: nat)
    requires Rising(Ids(b), bound)
    ensures Rising(Ids(Cancel(b, id, error)), bound)
  {
    hide Ids, Rising, Without;
    var q, a := QueuedIndex(b.queued, id), ActiveIndex(b.active, id);
    if q < |b.queued| {
      RemoveQueuedIds(b, q, bound);
      IdsOnly(b.(queued := Without(b.queued, q)), Cancel(b, id, error));
    } else if a < |b.active| {
      RemoveActiveIds(b, a, bound);
      IdsOnly(b.(active := Without(b.active, a)), Cancel(b, id, error));
    }
  }

  lemma CloseIds(b: Broker)
    ensures Rising(Ids(Reset(b)), 1)
  {
    assert Ids(Broker(0, [], [], [])) == [];
    hide Ids;
    IdsOnly(Reset(b), Broker(0, [], [], []));
  }

  lemma CountersAgree(w: World, e: Event)
    requires IdsDiffer(w)
    ensures var (v, n) := (Step(w, e), Step(w, e).asked); v.b.lastId == if n <= MAX_ID then n else MAX_ID
  {
    hide Ids, Rising, Without, QueuedCalls, ActiveCalls;
  }

  lemma StepIdsDiffer(w: World, e: Event)
    requires IdsDiffer(w)
    ensures IdsDiffer(Step(w, e))
  {
    CountersAgree(w, e);
    hide Ids, Rising, Completed, Cancel, QueuedCalls, ActiveCalls;
    match e
    case Ask(path, refused) =>
      if refused.None? && w.asked < MAX_ID {
        AskIds(w.b, path, |w.paths|);
      }
    case Start(url) => StartIds(w.b, url);
    case Complete(download, success) =>
      if w.asked <= MAX_ID && download < |w.downloads| {
        CompleteIds(w.b, w.downloads[download].url, success, w.b.lastId + 1);
      }
    case Abort(id, error) => if w.asked <= MAX_ID { AbortIds(w.b, id, error, w.b.lastId + 1); }
    case CloseBrowser => CloseIds(w.b);
  }

  // Paths

  lemma AskKeepsPaths(w: World, path: string)
    requires PathsKept(w)
    ensures PathsKept(Step(w, Ask(path, None)))
  {
  }

  lemma WithoutKeepsPaths(queued: seq<Queued>, active: seq<Active>, paths: seq<string>, index: nat)
    requires QueuedKept(queued, paths) && ActiveKept(active, paths)
    ensures index < |queued| ==> QueuedKept(Without(queued, index), paths)
    ensures index < |active| ==> ActiveKept(Without(active, index), paths)
  {
    if index < |queued| {
      assert forall i | 0 <= i < |queued| - 1 :: Without(queued, index)[i] == queued[if i < index then i else i + 1];
    }
    if index < |active| {
      assert forall i | 0 <= i < |active| - 1 :: Without(active, index)[i] == active[if i < index then i else i + 1];
    }
  }

  lemma CallKeepsPaths(calls: seq<Call>, call: Call, paths: seq<string>)
    requires CallsKept(calls, paths)
    requires call.result.Ok? ==> call.callback < |paths| && call.result.value == paths[call.callback]
    ensures CallsKept(calls + [call], paths)
  {
  }

  lemma CallsKeptConcat(a: seq<Call>, b: seq<Call>, paths: seq<string>)
    requires CallsKept(a, paths) && CallsKept(b, paths)
    ensures CallsKept(a + b, paths)
  {
  }

  lemma CompleteKeepsPaths(w: World, url: string, success: bool)
    requires PathsKept(w)
    ensures PathsKept(CompleteUrl(w, url, success))
  {
    var index := UrlIndex(w.b.active, url);
    if index < |w.b.active| {
      var a := w.b.active[index];
      WithoutKeepsPaths([], w.b.active, w.paths, index);
      CallKeepsPaths(w.b.calls, Call(a.callback, if success then Ok(a.path) else Err(INCOMPLETE)), w.paths);
      hide QueuedKept, CallsKept, ActiveKept, Without;
    }
  }

  lemma AbortKeepsPaths(w: World, id: nat, error: string)
    requires PathsKept(w)
    ensures PathsKept(Step(w, Abort(id, error)))
  {
    hide QueuedKept, CallsKept, ActiveKept, Without;
    var q, a := QueuedIndex(w.b.queued, id), ActiveIndex(w.b.active, id);
    WithoutKeepsPaths(w.b.queued, w.b.active, w.paths, q);
    WithoutKeepsPaths(w.b.queued, w.b.active, w.paths, a);
    if q < |w.b.queued| {
      CallKeepsPaths(w.b.calls, Call(w.b.queued[q].callback, Err(error)), w.paths);
    } else if a < |w.b.active| {
      CallKeepsPaths(w.b.calls, Call(w.b.active[a].callback, Err(error)), w.paths);
    }
  }

  lemma CloseKeepsPaths(w: World)
    requires PathsKept(w)
    ensures PathsKept(Step(w, CloseBrowser))
  {
    QueuedCallsColumn(w.b.queued);
    ActiveCallsColumn(w.b.active);
    assert CallsKept(QueuedCalls(w.b.queued), w.paths) && CallsKept(ActiveCalls(w.b.active), w.paths);
    assert QueuedKept([], w.paths) && ActiveKept([], w.paths);
    hide QueuedKept, CallsKept, ActiveKept, QueuedCalls, ActiveCalls;
    CallsKeptConcat(w.b.calls, QueuedCalls(w.b.queued), w.paths);
    CallsKeptConcat(w.b.calls + QueuedCalls(w.b.queued), ActiveCalls(w.b.active), w.paths);
  }

  lemma StartKeepsPaths(w: World, url: string)
    requires PathsKept(w)
    ensures PathsKept(Step(w, Start(url)))
  {
  }

  lemma StepKeepsPaths(w: World, e: Event)
    requires PathsKept(w)
    ensures PathsKept(Step(w, e))
  {
    hide PathsKept, Completed, Cancel, Reset, Started;
    match e
    case Ask(path, refused) => if refused.None? { AskKeepsPaths(w, path); }
    case Start(url) => StartKeepsPaths(w, url);
    case Complete(download, success) =>
      if download < |w.downloads| {
        CompleteKeepsPaths(w, w.downloads[download].url, success);
      }
    case Abort(id, error) => AbortKeepsPaths(w, id, error);
    case CloseBrowser => CloseKeepsPaths(w);
  }

  // Downloads of the browser

  /** The active requests are those of the pending downloads, in the order in which these were started. */
  predicate Tracked(w: World) {
    && |w.pending| == |w.b.active| && Rising(w.pending, |w.downloads|)
    && forall i | 0 <= i < |w.pending| :: Is(w.downloads[w.pending[i]], w.b.active[i])
  }

  predicate Is(download: Download, active: Active) {
    download == Download(active.url, Some(active.callback))
  }

  /** Later downloads were taken for later requests. */
  predicate TakenInOrder(w: World) {
    && (forall u | 0 <= u < |w.downloads| && w.downloads[u].callback.Some? ::
        w.downloads[u].callback.value in w.started)
    && (forall u, v | 0 <= u < v < |w.downloads| && w.downloads[u].callback.Some? && w.downloads[v].callback.Some? ::
          w.downloads[u].callback.value < w.downloads[v].callback.value)
  }

  lemma DropTracked(w: World, index: nat, b: Broker)
    requires Tracked(w) && index <= |w.b.active|
    requires b.active == if index < |w.b.active| then Without(w.b.active, index) else w.b.active
    ensures Tracked(w.(b := b, pending := Drop(w.pending, index)))
  {
    if index < |w.pending| {
      RisingWithout(w.pending, index, |w.downloads|);
      WithoutAt(w.pending, index);
      WithoutAt(w.b.active, index);
      hide Without;
      forall i | 0 <= i < |b.active| ensures Is(w.downloads[Without(w.pending, index)[i]], b.active[i]) {
        assert Is(w.downloads[w.pending[if i < index then i else i + 1]], w.b.active[if i < index then i else i + 1]);
      }
    }
  }

  lemma WithoutAt<T>(items: seq<T>, index: nat)
    requires index < |items|
    ensures |Without(items, index)| == |items| - 1
    ensures forall i | 0 <= i < |items| - 1 :: Without(items, index)[i] == items[if i < index then i else i + 1]
  {
  }

  lemma StartTracked(w: World, url: string)
    requires Tracked(w)
    ensures Tracked(Step(w, Start(url)))
  {
    if w.b.queued != [] {
      assert Rising(w.pending + [|w.downloads|], |w.downloads| + 1);
    } else {
      assert w.pending + [] == w.pending;
    }
  }

  lemma StepTracked(w: World, e: Event)
    requires Tracked(w)
    ensures Tracked(Step(w, e))
  {
    hide Without, QueuedCalls, ActiveCalls;
    match e
    case Ask(path, refused) =>
    case Start(url) => StartTracked(w, url);
    case Complete(download, success) =>
      if download < |w.downloads| {
        var url := w.downloads[download].url;
        DropTracked(w, UrlIndex(w.b.active, url), Completed(w.b, url, success));
      }
    case Abort(id, error) =>
      if QueuedIndex(w.b.queued, id) < |w.b.queued| {
        DropTracked(w, |w.b.active|, Cancel(w.b, id, error));
      } else {
        DropTracked(w, ActiveIndex(w.b.active, id), Cancel(w.b, id, error));
      }
    case CloseBrowser =>
  }

  lemma StepTakesInOrder(w: World, e: Event)
    requires TakenInOrder(w) && LineUp(w)
    ensures TakenInOrder(Step(w, e))
  {
    hide Without, QueuedCalls, ActiveCalls;
    if e.Start? && w.b.queued != [] {
      var next := w.b.queued[0].callback;
      assert Line(w)[|w.started|] == next;
      forall c | c in w.started ensures c < next {
        var i :| 0 <= i < |w.started| && w.started[i] == c;
        assert Line(w)[i] == c;
      }
    }
  }

  // Runs

  predicate Inv(w: World) {
    OncePlaced(w) && LineUp(w) && PathsKept(w) && IdsDiffer(w) && Tracked(w) && TakenInOrder(w)
  }

  lemma StepKeepsInv(w: World, e: Event)
    requires Inv(w)
    ensures Inv(Step(w, e))
  {
    hide OncePlaced, LineUp, PathsKept, IdsDiffer, Tracked, TakenInOrder, Step;
    StepPlacesOnce(w, e);
    StepLinesUp(w, e);
    StepKeepsPaths(w, e);
    StepIdsDiffer(w, e);
    StepTracked(w, e);
    StepTakesInOrder(w, e);
  }

  lemma {:induction false} RunKeepsInv(w: World, events: seq<Event>)
    requires Inv(w)
    ensures Inv(Run(w, events))
    decreases |events|
  {
    hide Inv, Step;
    if events != [] {
      StepKeepsInv(w, events[0]);
      RunKeepsInv(Step(w, events[0]), events[1..]);
    }
  }

  lemma StartInv()
    ensures Inv(START)
  {
    assert All(START.b) == multiset{} == FirstCallbacks(0);
    assert Line(START) == [] && Ids(START.b) == [];
  }

  /** In every run: each callback handed over is in exactly one of queued, active and called, once; downloads
      are started in the order in which they were asked for; and a success reports the path asked for. */
  lemma EveryRun(events: seq<Event>, callback: Callback)
    ensures var w := Run(START, events);
      && Waiting(w.b.queued)[callback] + Running(w.b.active)[callback] + Answered(w.b.calls)[callback]
         == (if callback < |w.paths| then 1 else 0)
      && Rising(w.started + Column(w.b.queued, QUEUED_CALLBACK), |w.paths|)
      && PathsKept(w)
  {
    StartInv();
    RunKeepsInv(START, events);
    hide Run, Waiting, Running, Answered, PathsKept, Rising, IdsDiffer, Column;
    var w := Run(START, events);
    assert All(w.b)[callback] == FirstCallbacks(|w.paths|)[callback];
  }

  lemma NonePending(b: Broker)
    requires b.queued == [] && b.active == []
    ensures All(b) == Answered(b.calls)
  {
    assert Waiting([]) == multiset{} && Running([]) == multiset{};
    hide Answered;
  }

  /** A reset leaves nothing pending: every callback handed over has been called, once. */
  lemma ResetAnswersAll(events: seq<Event>, callback: Callback)
    ensures var w := Step(Run(START, events), CloseBrowser);
      && w.b.queued == [] && w.b.active == []
      && Answered(w.b.calls)[callback] == if callback < |w.paths| then 1 else 0
  {
    hide All, Answered, Run, IdsDiffer, LineUp, PathsKept;
    StartInv();
    RunKeepsInv(START, events);
    var w := Run(START, events);
    StepPlacesOnce(w, CloseBrowser);
    NonePending(Step(w, CloseBrowser).b);
  }

  // Which download is meant

  predicate PendingAt(w: World, u: nat, url: string) {
    u in w.pending && u < |w.downloads| && w.downloads[u].url == url
  }

  /** The pending download `u` is the oldest of its address. */
  predicate OldestAt(w: World, u: nat, url: string) {
    PendingAt(w, u, url) && forall v | PendingAt(w, v, url) :: u <= v
  }

  /** A completion is taken for that of the oldest pending download of the address, whichever completed. */
  lemma CompletionAnswersOldest(w: World, url: string, success: bool)
    requires Tracked(w) && PathsKept(w)
    ensures var index := UrlIndex(w.b.active, url);
      if index == |w.pending| then
        CompleteUrl(w, url, success).b == w.b && forall u: nat :: !PendingAt(w, u, url)
      else
        var u := w.pending[index];
        && OldestAt(w, u, url) && w.downloads[u].callback.Some? && w.downloads[u].callback.value < |w.paths|
        && CompleteUrl(w, url, success).b.calls
           == w.b.calls + [Call(w.downloads[u].callback.value,
                                if success then Ok(w.paths[w.downloads[u].callback.value]) else Err(INCOMPLETE))]
  {
    hide Without, Drop;
    var index := UrlIndex(w.b.active, url);
    forall u: nat | PendingAt(w, u, url)
      ensures index < |w.pending| && w.pending[index] <= u
    {
      var i :| 0 <= i < |w.pending| && w.pending[i] == u;
      assert Is(w.downloads[w.pending[i]], w.b.active[i]);
    }
    if index < |w.pending| {
      assert Is(w.downloads[w.pending[index]], w.b.active[index]);
    }
  }

  /** The completion of a download calls nobody, or the callback of the request it was taken for. */
  predicate AnswersItsOwn(w: World, download: nat, success: bool)
    requires download < |w.downloads|
  {
    var calls := Step(w, Complete(download, success)).b.calls;
    forall i | |w.b.calls| <= i < |calls| :: w.downloads[download].callback == Some(calls[i].callback)
  }

  /** Whether it was asked for or not, and whether its request is still active or not: the completion of a
      download never answers another request exactly when every other pending download of its address is
      younger, and it is pending itself. */
  lemma CompletesTheRightOneIff(events: seq<Event>, download: nat, success: bool)
    requires download < |Run(START, events).downloads|
    ensures var w := Run(START, events);
      AnswersItsOwn(w, download, success)
      <==> forall u | PendingAt(w, u, w.downloads[download].url) && u != download ::
             download in w.pending && download < u
  {
    StartInv();
    RunKeepsInv(START, events);
    hide Inv, Run, AnswersItsOwn, PendingAt;
    CompletesAt(Run(START, events), download, success);
  }

  lemma CompletesAt(w: World, download: nat, success: bool)
    requires Inv(w) && download < |w.downloads|
    ensures AnswersItsOwn(w, download, success)
       <==> forall u | PendingAt(w, u, w.downloads[download].url) && u != download ::
           download in w.pending && download < u
  {
    var url := w.downloads[download].url;
    var index := UrlIndex(w.b.active, url);
    assert |w.pending| == |w.b.active|;
    hide OncePlaced, LineUp, IdsDiffer, PathsKept, TakenInOrder, Tracked, AnswersItsOwn, PendingAt;
    CompletionAnswersOldest(w, url, success);
    if index < |w.pending| {
      CallsLast(w, download, success, w.pending[index]);
      IsOldestIff(w, w.pending[index], download, url);
    } else {
      CallsNone(w, download, success);
    }
  }

  lemma IsOldestIff(w: World, oldest: nat, download: nat, url: string)
    requires OldestAt(w, oldest, url) && download < |w.downloads| && w.downloads[download].url == url
    ensures download == oldest
       <==> forall u | PendingAt(w, u, url) && u != download :: download in w.pending && download < u
  {
    assert PendingAt(w, oldest, url);
    assert download in w.pending ==> PendingAt(w, download, url);
  }

  lemma CallsNone(w: World, download: nat, success: bool)
    requires download < |w.downloads| && CompleteUrl(w, w.downloads[download].url, success).b == w.b
    ensures AnswersItsOwn(w, download, success)
  {
    hide CompleteUrl;
  }

  lemma CallsLast(w: World, download: nat, success: bool, oldest: nat)
    requires download < |w.downloads| && TakenInOrder(w)
    requires OldestAt(w, oldest, w.downloads[download].url) && w.downloads[oldest].callback.Some?
    requires var calls := Step(w, Complete(download, success)).b.calls;
      |calls| == |w.b.calls| + 1 && calls[|w.b.calls|].callback == w.downloads[oldest].callback.value
    ensures AnswersItsOwn(w, download, success) <==> download == oldest
  {
    hide Step;
    var calls := Step(w, Complete(download, success)).b.calls;
    assert AnswersItsOwn(w, download, success)
      <==> w.downloads[download].callback == Some(calls[|w.b.calls|].callback);
  }

  /** The callback of the request that the download was taken for is called last, with its path or a failure. */
  predicate AnswersWithItsPath(w: World, after: World, download: nat, success: bool)
    requires download < |w.downloads|
  {
    var callback := w.downloads[download].callback;
    && callback.Some? && callback.value < |w.paths|
    && after.b.calls
       == w.b.calls + [Call(callback.value, if success then Ok(w.paths[callback.value]) else Err(INCOMPLETE))]
  }

  /** And the oldest pending download of its address is answered when it completes, with the path asked for. */
  lemma OldestCompletes(events: seq<Event>, download: nat, success: bool)
    requires download < |Run(START, events).downloads|
    requires var w := Run(START, events); OldestAt(w, download, w.downloads[download].url)
    ensures var w := Run(START, events); AnswersWithItsPath(w, Step(w, Complete(download, success)), download, success)
  {
    StartInv();
    RunKeepsInv(START, events);
    hide Inv, Run, AnswersWithItsPath, OldestAt, Step;
    OldestCompletesAt(Run(START, events), download, success);
  }

  lemma OldestCompletesAt(w: World, download: nat, success: bool)
    requires Inv(w) && download < |w.downloads| && OldestAt(w, download, w.downloads[download].url)
    ensures AnswersWithItsPath(w, Step(w, Complete(download, success)), download, success)
  {
    var url := w.downloads[download].url;
    assert |w.pending| == |w.b.active|;
    hide OncePlaced, LineUp, IdsDiffer, PathsKept, TakenInOrder, Tracked, PendingAt, CompleteUrl;
    CompletionAnswersOldest(w, url, success);
    assert PendingAt(w, download, url);
  }

  /** A download that nobody asked for, and one for a request of the same address. */
  const UNASKED: seq<Event> := [Start("u"), Ask("b", None), Start("u")]

  const AFTER_UNASKED := World(Broker(1, [], [Active(1, "u", "b", 0)], []), ["b"], [0], 1,
                               [Download("u", None), Download("u", Some(0))], [1])

  lemma AfterUnasked()
    ensures Run(START, UNASKED) == AFTER_UNASKED
  {
    hide Run;
    var w1 := START.(downloads := [Download("u", None)]);
    var w2 := w1.(b := Broker(1, [Queued(1, "b", 0)], [], []), paths := ["b"], asked := 1);
    RunIsTrace([START, w1, w2, AFTER_UNASKED], UNASKED);
  }

  /** When the one that nobody asked for completes, the request is told that its own has. */
  lemma UnaskedAnswersAnother()
    ensures Step(Run(START, UNASKED), Complete(0, true)).b.calls == [Call(0, Ok("b"))]
  {
    AfterUnasked();
    hide Run;
  }

  /** A request cancelled after the browser started a download for it, and another for the same address. */
  const CANCELLED: seq<Event> := [Ask("a", None), Start("u"), Abort(1, "timeout"), Ask("b", None), Start("u")]

  const AFTER_CANCELLED := World(Broker(2, [], [Active(2, "u", "b", 1)], [Call(0, Err("timeout"))]), ["a", "b"],
                                 [0, 1], 2, [Download("u", Some(0)), Download("u", Some(1))], [1])

  lemma AfterCancelled()
    ensures Run(START, CANCELLED) == AFTER_CANCELLED
  {
    hide Run;
    var calls := [Call(0, Err("timeout"))];
    var w1 := START.(b := Broker(1, [Queued(1, "a", 0)], [], []), paths := ["a"], asked := 1);
    var w2 := World(Broker(1, [], [Active(1, "u", "a", 0)], []), ["a"], [0], 1, [Download("u", Some(0))], [0]);
    var w3 := w2.(b := Broker(1, [], [], calls), pending := []);
    var w4 := w3.(b := Broker(2, [Queued(2, "b", 1)], [], calls), paths := ["a", "b"], asked := 2);
    FirstThree(calls, w1, w2, w3);
    LastTwo(w3, w4);
    hide Step;
    RunIsTrace([START, w1, w2, w3, w4, AFTER_CANCELLED], CANCELLED);
  }

  /** A cancelled download goes on in the browser; it completes, and a newer request for its address is told so. */
  lemma CancelledAnswersAnother()
    ensures Step(Run(START, CANCELLED), Complete(0, true)).b.calls == [Call(0, Err("timeout")), Call(1, Ok("b"))]
  {
    AfterCancelled();
    hide Run;
  }

  lemma LastTwo(w3: World, w4: World)
    requires w3 == World(Broker(1, [], [], [Call(0, Err("timeout"))]), ["a"], [0], 1, [Download("u", Some(0))], [])
    requires w4 == w3.(b := Broker(2, [Queued(2, "b", 1)], [], w3.b.calls), paths := ["a", "b"], asked := 2)
    ensures Step(w3, Ask("b", None)) == w4 && Step(w4, Start("u")) == AFTER_CANCELLED
  {
  }

  lemma FirstThree(calls: seq<Call>, w1: World, w2: World, w3: World)
    requires calls == [Call(0, Err("timeout"))]
    requires w1 == START.(b := Broker(1, [Queued(1, "a", 0)], [], []), paths := ["a"], asked := 1)
    requires w2 == World(Broker(1, [], [Active(1, "u", "a", 0)], []), ["a"], [0], 1, [Download("u", Some(0))], [0])
    requires w3 == w2.(b := Broker(1, [], [], calls), pending := [])
    ensures Step(START, Ask("a", None)) == w1 && Step(w1, Start("u")) == w2 && Step(w2, Abort(1, "timeout")) == w3
  {
  }

  /** A run written down with the worlds it goes through. */
  lemma {:induction false} RunIsTrace(worlds: seq<World>, events: seq<Event>)
    requires |worlds| == |events| + 1
    requires forall i | 0 <= i < |events| :: Step(worlds[i], events[i]) == worlds[i + 1]
    ensures Run(worlds[0], events) == worlds[|events|]
    decreases |events|
  {
    hide Step;
    if events != [] {
      RunIsTrace(worlds[1..], events[1..]);
    }
  }

  lemma IdsAt(b: Broker)
    ensures |Ids(b)| == |b.active| + |b.queued|
    ensures forall i | 0 <= i < |b.active| :: Ids(b)[i] == b.active[i].id
    ensures forall i | 0 <= i < |b.queued| :: Ids(b)[|b.active| + i] == b.queued[i].id
  {
  }

  lemma CancelsQueued(b: Broker, bound: nat, k: nat, error: string)
    requires Rising(Ids(b), bound) && k < |b.queued|
    ensures Cancel(b, b.queued[k].id, error).calls == b.calls + [Call(b.queued[k].callback, Err(error))]
  {
    hide Ids, Without;
    IdsAt(b);
    var q := QueuedIndex(b.queued, b.queued[k].id);
    assert q <= k;
    assert Ids(b)[|b.active| + q] == Ids(b)[|b.active| + k];
  }

  lemma CancelsActive(b: Broker, bound: nat, k: nat, error: string)
    requires Rising(Ids(b), bound) && k < |b.active|
    ensures Cancel(b, b.active[k].id, error).calls == b.calls + [Call(b.active[k].callback, Err(error))]
  {
    hide Ids, Without;
    IdsAt(b);
    var id := b.active[k].id;
    var q, a := QueuedIndex(b.queued, id), ActiveIndex(b.active, id);
    assert a <= k && Ids(b)[a] == Ids(b)[k];
    forall i | 0 <= i < |b.queued| ensures id < b.queued[i].id {
      assert Ids(b)[k] < Ids(b)[|b.active| + i];
    }
  }

  /** Until the counter saturates, an id means one pending download, and cancelling it ends that one. */
  lemma CancelEndsItsOwn(events: seq<Event>, k: nat, error: string)
    requires Run(START, events).asked <= MAX_ID
    ensures var b := Run(START, events).b;
      && (k < |b.queued| ==>
            Cancel(b, b.queued[k].id, error).calls == b.calls + [Call(b.queued[k].callback, Err(error))])
      && (k < |b.active| ==>
            Cancel(b, b.active[k].id, error).calls == b.calls + [Call(b.active[k].callback, Err(error))])
  {
    hide Run, OncePlaced, LineUp, PathsKept, Cancel, Rising, Ids;
    StartInv();
    RunKeepsInv(START, events);
    var b := Run(START, events).b;
    if k < |b.queued| {
      CancelsQueued(b, b.lastId + 1, k, error);
    }
    if k < |b.active| {
      CancelsActive(b, b.lastId + 1, k, error);
    }
  }

  const REUSED: seq<Event> := [Ask("a", None), CloseBrowser, Ask("b", None), Abort(1, "cancelled")]

  /** Across a reset an id means nothing: cancelling by an id from before ends a newer download. */
  lemma OldIdCancelsNewer()
    ensures Run(START, REUSED).b.calls == [Call(0, Err(NOT_STARTED)), Call(1, Err("cancelled"))]
    ensures Begin(START.b, "a", 0, None).1 == Ok(1)
  {
    hide Run;
    var calls := [Call(0, Err(NOT_STARTED))];
    var w1 := START.(b := Broker(1, [Queued(1, "a", 0)], [], []), paths := ["a"], asked := 1);
    var w2 := w1.(b := Broker(0, [], [], calls), asked := 0);
    var w3 := w2.(b := Broker(1, [Queued(1, "b", 1)], [], calls), paths := ["a", "b"], asked := 1);
    var w4 := w3.(b := Broker(1, [], [], calls + [Call(1, Err("cancelled"))]));
    ResetOne(w1, w2);
    CancelOne(w2, w3, w4);
    hide Step;
    RunIsTrace([START, w1, w2, w3, w4], REUSED);
  }

  lemma CancelOne(w2: World, w3: World, w4: World)
    requires w2.b.queued == [] && w2.b.active == [] && w2.b.lastId == 0 && w2.asked == 0
    requires w2.paths == ["a"] && w2.pending == []
    requires w3 == w2.(b := Broker(1, [Queued(1, "b", 1)], [], w2.b.calls), paths := ["a", "b"], asked := 1)
    requires w4 == w3.(b := Broker(1, [], [], w2.b.calls + [Call(1, Err("cancelled"))]))
    ensures Step(w2, Ask("b", None)) == w3 && Step(w3, Abort(1, "cancelled")) == w4
  {
  }

  lemma ResetOne(w1: World, w2: World)
    requires w1 == START.(b := Broker(1, [Queued(1, "a", 0)], [], []), paths := ["a"], asked := 1)
    requires w2 == w1.(b := Broker(0, [], [], [Call(0, Err(NOT_STARTED))]), asked := 0)
    ensures Step(START, Ask("a", None)) == w1 && Step(w1, CloseBrowser) == w2
  {
    assert QueuedCalls([Queued(1, "a", 0)]) == [Call(0, Err(NOT_STARTED))] + QueuedCalls([]);
  }

  lemma StepCallsGrow(w: World, e: Event)
    ensures w.b.calls <= Step(w, e).b.calls
  {
    hide QueuedCalls, ActiveCalls, Without;
  }

  lemma {:induction false} CallsGrow(w: World, events: seq<Event>)
    ensures w.b.calls <= Run(w, events).b.calls
    decreases |events|
  {
    hide Step;
    if events != [] {
      StepCallsGrow(w, events[0]);
      CallsGrow(Step(w, events[0]), events[1..]);
    }
  }

  /** What a cancellation ends, if it ends anything: a pending download with that id. */
  lemma CancelEndsPending(b: Broker, id: nat, error: string)
    ensures Cancel(b, id, error).calls != b.calls <==> id in Ids(b)
    ensures id in Ids(b) ==> exists callback ::
      (Waiting(b.queued)[callback] > 0 || Running(b.active)[callback] > 0)
      && Cancel(b, id, error).calls == b.calls + [Call(callback, Err(error))]
  {
    hide Without;
    var q, a := QueuedIndex(b.queued, id), ActiveIndex(b.active, id);
    IdsAt(b);
    if q < |b.queued| {
      assert Column(b.queued, QUEUED_CALLBACK)[q] == b.queued[q].callback;
      assert Ids(b)[|b.active| + q] == id;
      assert Waiting(b.queued)[b.queued[q].callback] > 0;
    } else if a < |b.active| {
      assert Column(b.active, ACTIVE_CALLBACK)[a] == b.active[a].callback;
      assert Ids(b)[a] == id;
      assert Running(b.active)[b.active[a].callback] > 0;
    } else {
      hide Ids;
      forall i | 0 <= i < |Ids(b)| ensures Ids(b)[i] != id {
        if i >= |b.active| {
          assert Ids(b)[|b.active| + (i - |b.active|)] == b.queued[i - |b.active|].id;
        }
      }
    }
  }

  lemma AnsweredMore(calls: seq<Call>, more: seq<Call>, callback: Callback)
    requires calls <= more
    ensures Answered(calls)[callback] <= Answered(more)[callback]
  {
    assert more == calls + more[|calls|..];
    AnsweredConcat(calls, more[|calls|..]);
  }

  /** After a reset and any further events, a pending download was asked for after the reset; so an id given out
      before it ends a download exactly when that id is pending again, and then one that is newer. */
  lemma OldIdEndsNewerIff(before: seq<Event>, after: seq<Event>, id: nat, error: string)
    ensures var reset := Step(Run(START, before), CloseBrowser);
      var b := Run(reset, after).b;
      && (Cancel(b, id, error).calls != b.calls <==> id in Ids(b))
      && (id in Ids(b) ==> exists callback ::
            callback >= |reset.paths| && Cancel(b, id, error).calls == b.calls + [Call(callback, Err(error))])
  {
    var reset := Step(Run(START, before), CloseBrowser);
    var w := Run(reset, after);
    CancelEndsPending(w.b, id, error);
    if id in Ids(w.b) {
      hide Run, Step, Cancel, Ids, Waiting, Running, Answered, All;
      var callback :| (Waiting(w.b.queued)[callback] > 0 || Running(w.b.active)[callback] > 0)
        && Cancel(w.b, id, error).calls == w.b.calls + [Call(callback, Err(error))];
      PendingIsNewer(before, after, callback);
    }
  }

  lemma PendingIsNewer(before: seq<Event>, after: seq<Event>, callback: Callback)
    requires var w := Run(Step(Run(START, before), CloseBrowser), after);
      Waiting(w.b.queued)[callback] > 0 || Running(w.b.active)[callback] > 0
    ensures callback >= |Step(Run(START, before), CloseBrowser).paths|
  {
    hide Run, Step, Waiting, Running, Answered, All, IdsDiffer, LineUp, PathsKept;
    var reset := Step(Run(START, before), CloseBrowser);
    var w := Run(reset, after);
    StartInv();
    RunKeepsInv(START, before);
    StepKeepsInv(Run(START, before), CloseBrowser);
    RunKeepsInv(reset, after);
    ResetAnswersAll(before, callback);
    CallsGrow(reset, after);
    AnsweredMore(reset.b.calls, w.b.calls, callback);
    PlacedAt(w, callback);
  }

  lemma PlacedAt(w: World, callback: Callback)
    requires OncePlaced(w)
    ensures Waiting(w.b.queued)[callback] + Running(w.b.active)[callback] + Answered(w.b.calls)[callback] <= 1
  {
    hide Waiting, Running, Answered;
    assert All(w.b)[callback] == FirstCallbacks(|w.paths|)[callback];
  }
}
