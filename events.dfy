/** The in-page event bus (src/js/apis/events.ts): a registry from event
    name to an ordered list of callbacks, mirrored onto `document`
    listeners, and the dispatch that calls both. Callbacks are identified
    by ids and event payloads by their serialised text. */
module Events {
  import opened Wrappers

  type CallbackId = nat
  type Data = string

  /** `eventListeners`: a name is present once a list was created for it. */
  type Registry = map<string, seq<CallbackId>>

  /** What a callback receives: the payload itself from the registry, or
      the `CustomEvent` (name and detail) from `document`. */
  datatype Arg = Raw(data: Data) | Custom(name: string, detail: Data)

  datatype Call = Call(callback: CallbackId, arg: Arg)

  function Get(r: Registry, name: string): seq<CallbackId> {
    if name in r then r[name] else []
  }

  /** How often `x` occurs in `s`. */
  function Count<T(==)>(s: seq<T>, x: T): nat {
    if s == [] then 0 else (if s[0] == x then 1 else 0) + Count(s[1..], x)
  }

  lemma {:induction false} CountAppend<T>(s: seq<T>, t: seq<T>, x: T)
    ensures Count(s + t, x) == Count(s, x) + Count(t, x)
  {
    if s != [] {
      CountAppend(s[1..], t, x);
      assert (s + t)[1..] == s[1..] + t;
    } else {
      assert s + t == t;
    }
  }

  lemma {:induction false} CountZero<T>(s: seq<T>, x: T)
    ensures Count(s, x) == 0 <==> x !in s
  {
    if s != [] {
      CountZero(s[1..], x);
      assert x in s <==> s[0] == x || x in s[1..];
    }
  }

  /** `filter(cb => cb !== callback)`. */
  function Without(s: seq<CallbackId>, cb: CallbackId): (r: seq<CallbackId>)
    ensures cb !in r && |r| <= |s|
    ensures forall x :: x in r ==> x in s
  {
    if s == [] then []
    else if s[0] == cb then Without(s[1..], cb)
    else [s[0]] + Without(s[1..], cb)
  }

  /** The filter keeps every other callback as often as it occurred. */
  lemma {:induction false} WithoutKeepsOthers(s: seq<CallbackId>, cb: CallbackId, x: CallbackId)
    requires x != cb
    ensures Count(Without(s, cb), x) == Count(s, x)
  {
    if s != [] {
      WithoutKeepsOthers(s[1..], cb, x);
      if s[0] != cb {
        assert ([s[0]] + Without(s[1..], cb))[1..] == Without(s[1..], cb);
      }
    }
  }

  /** Keeps the others in their order: the filter of a list of callbacks
      none of which is `cb` is that list. */
  lemma {:induction false} WithoutAbsent(s: seq<CallbackId>, cb: CallbackId)
    requires cb !in s
    ensures Without(s, cb) == s
  {
    if s != [] {
      WithoutAbsent(s[1..], cb);
      assert s == [s[0]] + s[1..];
    }
  }

  lemma {:induction false} WithoutAppend(s: seq<CallbackId>, t: seq<CallbackId>, cb: CallbackId)
    ensures Without(s + t, cb) == Without(s, cb) + Without(t, cb)
  {
    if s == [] {
      assert s + t == t;
    } else {
      assert (s + t)[1..] == s[1..] + t;
      WithoutAppend(s[1..], t, cb);
    }
  }

  /** `addEventListener` on the registry. */
  function Added(r: Registry, name: string, cb: CallbackId): (r': Registry)
    ensures r'.Keys == r.Keys + {name}
    ensures Count(Get(r', name), cb) == Count(Get(r, name), cb) + 1
    ensures forall n :: n != name ==> Get(r', n) == Get(r, n)
  {
    CountAppend(Get(r, name), [cb], cb);
    assert Count([cb], cb) == 1;
    r[name := Get(r, name) + [cb]]
  }

  /** `removeEventListener` on the registry: nothing without a list. */
  function Removed(r: Registry, name: string, cb: CallbackId): (r': Registry)
    ensures r'.Keys == r.Keys
    ensures cb !in Get(r', name) && |Get(r', name)| <= |Get(r, name)|
    ensures forall n :: n != name ==> Get(r', n) == Get(r, n)
  {
    if name in r then r[name := Without(r[name], cb)] else r
  }

  /** `document.addEventListener`, which ignores a pair it already has. */
  function DocAdded(d: Registry, name: string, cb: CallbackId): Registry {
    if cb in Get(d, name) then d else d[name := Get(d, name) + [cb]]
  }

  /** `document.removeEventListener`, reached only when the registry has a
      list for the name. */
  function DocRemoved(r: Registry, d: Registry, name: string, cb: CallbackId): Registry {
    if name in r then d[name := Without(Get(d, name), cb)] else d
  }

  /** The calls of `dispatchEvent`: each registered callback with the
      payload, in order, then each `document` listener with the event. */
  function DispatchCalls(r: Registry, d: Registry, name: string, data: Data): (calls: seq<Call>)
    ensures |calls| == |Get(r, name)| + |Get(d, name)|
    ensures forall k :: 0 <= k < |Get(r, name)| ==> calls[k] == Call(Get(r, name)[k], Raw(data))
    ensures forall k :: 0 <= k < |Get(d, name)| ==> calls[|Get(r, name)| + k] == Call(Get(d, name)[k], Custom(name, data))
  {
    RawCalls(Get(r, name), data) + CustomCalls(Get(d, name), name, data)
  }

  function RawCalls(cbs: seq<CallbackId>, data: Data): (calls: seq<Call>)
    ensures |calls| == |cbs|
    ensures forall k :: 0 <= k < |cbs| ==> calls[k] == Call(cbs[k], Raw(data))
  {
    if cbs == [] then [] else [Call(cbs[0], Raw(data))] + RawCalls(cbs[1..], data)
  }

  function CustomCalls(cbs: seq<CallbackId>, name: string, data: Data): (calls: seq<Call>)
    ensures |calls| == |cbs|
    ensures forall k :: 0 <= k < |cbs| ==> calls[k] == Call(cbs[k], Custom(name, data))
  {
    if cbs == [] then [] else [Call(cbs[0], Custom(name, data))] + CustomCalls(cbs[1..], name, data)
  }

  lemma {:induction false} RawCallsCount(cbs: seq<CallbackId>, data: Data, cb: CallbackId)
    ensures Count(RawCalls(cbs, data), Call(cb, Raw(data))) == Count(cbs, cb)
  {
    if cbs != [] {
      RawCallsCount(cbs[1..], data, cb);
      assert RawCalls(cbs, data)[1..] == RawCalls(cbs[1..], data);
    }
  }

  lemma {:induction false} CustomCallsHaveNoRaw(cbs: seq<CallbackId>, name: string, data: Data, c: Call)
    requires c.arg.Raw?
    ensures Count(CustomCalls(cbs, name, data), c) == 0
  {
    CountZero(CustomCalls(cbs, name, data), c);
  }

  /** `addEventListener` appends the callback to the name's list (creating
      it) and leaves every other name alone. */
  lemma AddAppends(r: Registry, name: string, cb: CallbackId, other: string)
    ensures Get(Added(r, name, cb), name) == Get(r, name) + [cb]
    ensures other != name ==> Get(Added(r, name, cb), other) == Get(r, other)
    ensures name in Added(r, name, cb)
  {
  }

  /** Adding a callback twice puts it in the list twice. */
  lemma AddTwice(r: Registry, name: string, cb: CallbackId)
    ensures Count(Get(Added(Added(r, name, cb), name, cb), name), cb) == Count(Get(r, name), cb) + 2
  {
    var l := Get(r, name);
    assert Get(Added(Added(r, name, cb), name, cb), name) == l + [cb, cb];
    CountAppend(l, [cb, cb], cb);
    assert [cb, cb][1..] == [cb] && [cb][1..] == [];
    assert Count([cb], cb) == 1;
    assert Count([cb, cb], cb) == 2;
  }

  /** `removeEventListener` removes every occurrence of the callback, keeps
      the others, and changes nothing for a name without a list. */
  lemma RemoveAll(r: Registry, name: string, cb: CallbackId, x: CallbackId)
    ensures cb !in Get(Removed(r, name, cb), name)
    ensures x != cb ==> Count(Get(Removed(r, name, cb), name), x) == Count(Get(r, name), x)
    ensures name !in r ==> Removed(r, name, cb) == r
  {
    if name in r && x != cb {
      WithoutKeepsOthers(r[name], cb, x);
    }
  }

  /** Removing after adding leaves the earlier list without the callback. */
  lemma AddThenRemove(r: Registry, name: string, cb: CallbackId)
    ensures Get(Removed(Added(r, name, cb), name, cb), name) == Without(Get(r, name), cb)
  {
    WithoutAppend(Get(r, name), [cb], cb);
    assert Without([cb], cb) == [];
    assert Without(Get(r, name), cb) + [] == Without(Get(r, name), cb);
  }

  /** A dispatch calls each registered callback with the payload as many
      times as it was added. */
  lemma DispatchCountsRegistrations(r: Registry, d: Registry, name: string, data: Data, cb: CallbackId)
    ensures Count(DispatchCalls(r, d, name, data), Call(cb, Raw(data))) == Count(Get(r, name), cb)
  {
    CountAppend(RawCalls(Get(r, name), data), CustomCalls(Get(d, name), name, data), Call(cb, Raw(data)));
    RawCallsCount(Get(r, name), data, cb);
    CustomCallsHaveNoRaw(Get(d, name), name, data, Call(cb, Raw(data)));
  }

  /** A freshly added callback is called twice by the next dispatch: with
      the payload and, through `document`, with the event. */
  lemma AddedCallbackCalledTwice(r: Registry, d: Registry, name: string, data: Data, cb: CallbackId)
    requires cb !in Get(r, name) && cb !in Get(d, name)
    ensures Count(DispatchCalls(Added(r, name, cb), DocAdded(d, name, cb), name, data), Call(cb, Raw(data))) == 1
    ensures Call(cb, Custom(name, data)) in DispatchCalls(Added(r, name, cb), DocAdded(d, name, cb), name, data)
  {
    DispatchCountsRegistrations(Added(r, name, cb), DocAdded(d, name, cb), name, data, cb);
    CountAppend(Get(r, name), [cb], cb);
    CountZero(Get(r, name), cb);
    var dl := Get(DocAdded(d, name, cb), name);
    assert dl[|dl| - 1] == cb;
    var calls := DispatchCalls(Added(r, name, cb), DocAdded(d, name, cb), name, data);
    assert calls[|Get(Added(r, name, cb), name)| + |dl| - 1] == Call(cb, Custom(name, data));
  }

  /** A message for the bus; `eventName` is `None` when it is missing. */
  datatype Message = Message(eventName: Option<string>, data: Data)

  /** The name `handleMessage`/`handleBroadcast` dispatch, if any: a falsy
      `event.data` reads as `{}`, and an empty name is ignored. */
  function MessageName(payload: Option<Message>): (n: Option<string>)
    ensures n.Some? ==> n.value != ""
    ensures n.None? <==> payload.None? || payload.value.eventName.None? || payload.value.eventName.value == ""
  {
    match payload
    case None => None
    case Some(m) => if m.eventName.Some? && m.eventName.value != "" then m.eventName else None
  }

  class EventSystem {
    var listeners: Registry
    var docListeners: Registry

    ghost predicate Valid()
      reads this
    {
      forall name :: name in docListeners ==> NoDuplicates(docListeners[name])
    }

    constructor ()
      ensures Valid() && listeners == map[] && docListeners == map[]
    {
      listeners := map[];
      docListeners := map[];
    }

    method AddEventListener(name: string, cb: CallbackId)
      requires Valid()
      modifies this
      ensures Valid()
      ensures listeners == Added(old(listeners), name, cb) && docListeners == DocAdded(old(docListeners), name, cb)
    {
      if name !in listeners {
        listeners := listeners[name := []];
      }
      listeners := listeners[name := listeners[name] + [cb]];
      if cb !in Get(docListeners, name) {
        NoDuplicatesAppend(Get(docListeners, name), cb);
        docListeners := docListeners[name := Get(docListeners, name) + [cb]];
      }
    }

    method RemoveEventListener(name: string, cb: CallbackId)
      requires Valid()
      modifies this
      ensures Valid()
      ensures listeners == Removed(old(listeners), name, cb)
      ensures docListeners == DocRemoved(old(listeners), old(docListeners), name, cb)
    {
      if name in listeners {
        listeners := listeners[name := Without(listeners[name], cb)];
        NoDuplicatesWithout(Get(docListeners, name), cb);
        docListeners := docListeners[name := Without(Get(docListeners, name), cb)];
      }
    }

    /** `dispatchEvent`: the calls it makes, in order. */
    method DispatchEvent(name: string, data: Data) returns (calls: seq<Call>)
      ensures calls == DispatchCalls(listeners, docListeners, name, data)
    {
      calls := [];
      var cbs := Get(listeners, name);
      var i := 0;
      while i < |cbs|
        invariant 0 <= i <= |cbs|
        invariant calls == RawCalls(cbs[..i], data)
      {
        RawCallsSnoc(cbs[..i], cbs[i], data);
        assert cbs[..i + 1] == cbs[..i] + [cbs[i]];
        calls := calls + [Call(cbs[i], Raw(data))];
        i := i + 1;
      }
      assert cbs[..i] == cbs;
      var docs := Get(docListeners, name);
      var j := 0;
      var custom: seq<Call> := [];
      while j < |docs|
        invariant 0 <= j <= |docs|
        invariant custom == CustomCalls(docs[..j], name, data)
      {
        CustomCallsSnoc(docs[..j], docs[j], name, data);
        assert docs[..j + 1] == docs[..j] + [docs[j]];
        custom := custom + [Call(docs[j], Custom(name, data))];
        j := j + 1;
      }
      assert docs[..j] == docs;
      calls := calls + custom;
    }

    /** `handleMessage` and `handleBroadcast`. */
    method HandleMessage(payload: Option<Message>) returns (calls: seq<Call>)
      ensures MessageName(payload).None? ==> calls == []
      ensures MessageName(payload).Some? ==>
        calls == DispatchCalls(listeners, docListeners, MessageName(payload).value, payload.value.data)
    {
      calls := [];
      var name := MessageName(payload);
      if name.Some? {
        calls := DispatchEvent(name.value, payload.value.data);
      }
    }
  }

  predicate NoDuplicates(s: seq<CallbackId>) {
    forall i, j :: 0 <= i < j < |s| ==> s[i] != s[j]
  }

  lemma NoDuplicatesAppend(s: seq<CallbackId>, cb: CallbackId)
    requires NoDuplicates(s) && cb !in s
    ensures NoDuplicates(s + [cb])
  {
  }

  lemma {:induction false} NoDuplicatesWithout(s: seq<CallbackId>, cb: CallbackId)
    requires NoDuplicates(s)
    ensures NoDuplicates(Without(s, cb))
  {
    if s != [] {
      NoDuplicatesWithout(s[1..], cb);
      if s[0] != cb {
        var w := Without(s[1..], cb);
        assert s[0] !in s[1..];
        assert s[0] !in w;
        assert ([s[0]] + w)[1..] == w;
      }
    }
  }

  lemma {:induction false} RawCallsSnoc(cbs: seq<CallbackId>, cb: CallbackId, data: Data)
    ensures RawCalls(cbs + [cb], data) == RawCalls(cbs, data) + [Call(cb, Raw(data))]
  {
  }

  lemma {:induction false} CustomCallsSnoc(cbs: seq<CallbackId>, cb: CallbackId, name: string, data: Data)
    ensures CustomCalls(cbs + [cb], name, data) == CustomCalls(cbs, name, data) + [Call(cb, Custom(name, data))]
  {
  }
}
