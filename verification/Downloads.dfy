/** The download broker: requests wait in a queue until the browser starts a download, and each is answered once. */
module Downloads {
  import opened Text

  const MAX_ID := 0xFFFF_FFFF_FFFF_FFFF

  /** A callback can be called once; callbacks are numbered in the order in which they were handed over. */
  type Callback = nat

  datatype Queued = Queued(id: nat, path: string, callback: Callback)
  datatype Active = Active(id: nat, url: string, path: string, callback: Callback)
  datatype Call = Call(callback: Callback, result: Result<string>)

  datatype Broker = Broker(lastId: nat, queued: seq<Queued>, active: seq<Active>, calls: seq<Call>)

  function NextId(lastId: nat): nat {
    if lastId >= MAX_ID then MAX_ID else lastId + 1
  }

  function QueuedIndex(queued: seq<Queued>, id: nat): (index: nat)
    ensures index <= |queued| && (index < |queued| ==> queued[index].id == id)
    ensures forall i | 0 <= i < index :: queued[i].id != id
  {
    IndexWhere(queued, (q: Queued) => q.id == id)
  }

  function ActiveIndex(active: seq<Active>, id: nat): (index: nat)
    ensures index <= |active| && (index < |active| ==> active[index].id == id)
    ensures forall i | 0 <= i < index :: active[i].id != id
  {
    IndexWhere(active, (a: Active) => a.id == id)
  }

  function UrlIndex(active: seq<Active>, url: string): (index: nat)
    ensures index <= |active| && (index < |active| ==> active[index].url == url)
    ensures forall i | 0 <= i < index :: active[i].url != url
  {
    IndexWhere(active, (a: Active) => a.url == url)
  }

  function Without<T>(items: seq<T>, index: nat): seq<T>
    requires index < |items|
  {
    items[..index] + items[index + 1..]
  }

  const INCOMPLETE := "Browser download did not complete."
  const NOT_STARTED := "Browser closed before the download started."
  const NOT_COMPLETED := "Browser closed before the download completed."

  function QueuedCalls(queued: seq<Queued>): seq<Call> {
    if queued == [] then [] else [Call(queued[0].callback, Err(NOT_STARTED))] + QueuedCalls(queued[1..])
  }

  function ActiveCalls(active: seq<Active>): seq<Call> {
    if active == [] then [] else [Call(active[0].callback, Err(NOT_COMPLETED))] + ActiveCalls(active[1..])
  }

  // The operations

  /** `refused` is why the destination cannot be used, if it cannot. */
  function Begin(b: Broker, path: string, callback: Callback, refused: Option<string>): (Broker, Result<nat>) {
    if refused.Some? then (b, Err(refused.value))
    else
      var id := NextId(b.lastId);
      (b.(lastId := id, queued := b.queued + [Queued(id, path, callback)]), Ok(id))
  }

  /** The destination of the request that waited longest, if any waits. */
  function Started(b: Broker, url: string): (Broker, Option<string>) {
    if b.queued == [] then (b, None)
    else
      var first := b.queued[0];
      (b.(queued := b.queued[1..], active := b.active + [Active(first.id, url, first.path, first.callback)]),
       Some(first.path))
  }

  function Completed(b: Broker, url: string, success: bool): Broker {
    var index := UrlIndex(b.active, url);
    if index == |b.active| then b
    else
      var result := if success then Ok(b.active[index].path) else Err(INCOMPLETE);
      b.(active := Without(b.active, index), calls := b.calls + [Call(b.active[index].callback, result)])
  }

  function Cancel(b: Broker, id: nat, error: string): Broker {
    var q, a := QueuedIndex(b.queued, id), ActiveIndex(b.active, id);
    if q < |b.queued| then
      b.(queued := Without(b.queued, q), calls := b.calls + [Call(b.queued[q].callback, Err(error))])
    else if a < |b.active| then
      b.(active := Without(b.active, a), calls := b.calls + [Call(b.active[a].callback, Err(error))])
    else b
  }

  function Reset(b: Broker): Broker {
    Broker(0, [], [], b.calls + QueuedCalls(b.queued) + ActiveCalls(b.active))
  }

  class DownloadBroker {
    var lastId: nat
    var queued: seq<Queued>
    var active: seq<Active>
    ghost var calls: seq<Call>

    ghost function View(): Broker
      reads this
    {
      Broker(lastId, queued, active, calls)
    }

    constructor ()
      ensures View() == Broker(0, [], [], [])
    {
      lastId, queued, active, calls := 0, [], [], [];
    }

    method Run(callback: Callback, result: Result<string>)
      modifies `calls
      ensures calls == old(calls) + [Call(callback, result)]
    {
      calls := calls + [Call(callback, result)];
    }

    method BeginDownload(path: string, callback: Callback, refused: Option<string>) returns (result: Result<nat>)
      modifies this
      ensures (View(), result) == Begin(old(View()), path, callback, refused)
    {
      if refused.Some? { return Err(refused.value); }
      lastId := if lastId >= MAX_ID then MAX_ID else lastId + 1;
      queued := queued + [Queued(lastId, path, callback)];
      result := Ok(lastId);
    }

    method DownloadStarted(url: string) returns (destination: Option<string>)
      modifies this
      ensures (View(), destination) == Started(old(View()), url)
    {
      if queued == [] { return None; }
      var reserved := queued[0];
      queued := queued[1..];
      active := active + [Active(reserved.id, url, reserved.path, reserved.callback)];
      destination := Some(reserved.path);
    }

    method DownloadCompleted(url: string, success: bool)
      modifies this
      ensures View() == Completed(old(View()), url, success)
    {
      var index := UrlIndex(active, url);
      if index == |active| { return; }
      var completed := active[index];
      active := active[..index] + active[index + 1..];
      Run(completed.callback, if success then Ok(completed.path) else Err(INCOMPLETE));
    }

    method CancelDownload(id: nat, error: string)
      modifies this
      ensures View() == Cancel(old(View()), id, error)
    {
      var index := QueuedIndex(queued, id);
      if index < |queued| {
        var callback := queued[index].callback;
        queued := queued[..index] + queued[index + 1..];
        Run(callback, Err(error));
        return;
      }
      index := ActiveIndex(active, id);
      if index < |active| {
        var callback := active[index].callback;
        active := active[..index] + active[index + 1..];
        Run(callback, Err(error));
      }
    }

    method ResetAll()
      modifies this
      ensures View() == Reset(old(View()))
    {
      var waiting, running := queued, active;
      lastId, queued, active := 0, [], [];
      ghost var before := calls;
      for i := 0 to |waiting|
        invariant lastId == 0 && queued == [] && active == []
        invariant before + QueuedCalls(waiting) == calls + QueuedCalls(waiting[i..])
      {
        Assoc(calls, [Call(waiting[i].callback, Err(NOT_STARTED))], QueuedCalls(waiting[i + 1..]));
        Run(waiting[i].callback, Err(NOT_STARTED));
      }
      assert calls + [] == calls;
      before := calls;
      for i := 0 to |running|
        invariant lastId == 0 && queued == [] && active == []
        invariant before + ActiveCalls(running) == calls + ActiveCalls(running[i..])
      {
        Assoc(calls, [Call(running[i].callback, Err(NOT_COMPLETED))], ActiveCalls(running[i + 1..]));
        Run(running[i].callback, Err(NOT_COMPLETED));
      }
      assert calls + [] == calls;
    }
  }
}
