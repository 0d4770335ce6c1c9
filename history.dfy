/** The session history of a proxied frame (src/js/apis/history.ts): a
    stack of entries and a current index, updated by the frame's
    `pushState`/`replaceState` replacements and by back, forward, go,
    addPage and clearHistory. Each operation is specified by a function on
    a `Session` value; the class applies it to its fields. */
module History {
  import opened Wrappers

  /** A `HistoryState`; the `state` object is kept as its serialised text. */
  datatype Entry = Entry(state: string, title: string, url: string)

  datatype Session = Session(stack: seq<Entry>, index: int)

  /** The invariant every operation but `init` keeps. */
  predicate ValidSession(s: Session) {
    -1 <= s.index < |s.stack|
  }

  /** What is emitted on the event bus; the navigating ones also carry
      the URL the frame is sent to. */
  datatype HistoryEvent =
    | Push(entry: Entry)
    | Replace(entry: Entry)
    | Back(url: string)
    | Forward(url: string)
    | Go(url: string)
    | Clear

  /** `pushState`: forward entries are dropped and the entry becomes the
      last one. */
  function Pushed(s: Session, e: Entry): (r: Session)
    requires ValidSession(s)
    ensures ValidSession(r)
    ensures |r.stack| == s.index + 2 && r.index == |r.stack| - 1
    ensures r.stack[..r.index] == s.stack[..s.index + 1] && r.stack[r.index] == e
  {
    Session(s.stack[..s.index + 1] + [e], s.index + 1)
  }

  /** `replaceState`: `None` when there is no current entry. */
  function Replaced(s: Session, e: Entry): (r: Option<Session>)
    requires ValidSession(s)
    ensures r.None? <==> s.index == -1
    ensures r.Some? ==> ValidSession(r.value) && r.value.index == s.index && |r.value.stack| == |s.stack|
    ensures r.Some? ==> r.value.stack[s.index] == e
    ensures r.Some? ==> forall k :: 0 <= k < |s.stack| && k != s.index ==> r.value.stack[k] == s.stack[k]
  {
    if s.index >= 0 then Some(Session(s.stack[s.index := e], s.index)) else None
  }

  /** The index `go(steps)` moves to, if it is inside the stack. */
  function GoTarget(s: Session, steps: int): (t: Option<int>)
    ensures t.Some? <==> 0 <= s.index + steps < |s.stack|
    ensures t.Some? ==> t.value == s.index + steps
  {
    var n := s.index + steps;
    if 0 <= n < |s.stack| then Some(n) else None
  }

  /** `back`: one step towards the oldest entry, if there is one. */
  function BackTarget(s: Session): (t: Option<int>)
    requires ValidSession(s)
    ensures t == GoTarget(s, -1)
    ensures t.Some? <==> s.index > 0
  {
    if s.index > 0 then Some(s.index - 1) else None
  }

  /** `forward`: one step towards the newest entry, if there is one. */
  function ForwardTarget(s: Session): (t: Option<int>)
    requires ValidSession(s)
    ensures t == GoTarget(s, 1)
    ensures t.Some? <==> s.index < |s.stack| - 1
  {
    if s.index < |s.stack| - 1 then Some(s.index + 1) else None
  }

  /** `addPage`: appends without dropping forward entries. */
  function Added(s: Session, e: Entry): (r: Session)
    ensures ValidSession(r)
    ensures |r.stack| == |s.stack| + 1 && r.stack[..|s.stack|] == s.stack && r.stack[|s.stack|] == e
    ensures r.index == |s.stack|
  {
    Session(s.stack + [e], |s.stack|)
  }

  /** `init`: whatever the store holds replaces the fields, unchecked. */
  function Restored(s: Session, storedStack: Option<seq<Entry>>, storedIndex: Option<int>): Session {
    Session(if storedStack.Some? then storedStack.value else s.stack,
            if storedIndex.Some? then storedIndex.value else s.index)
  }

  /** Two moves that both happen are one move by their sum. */
  lemma GoCompose(s: Session, a: int, b: int)
    requires GoTarget(s, a).Some? && GoTarget(Session(s.stack, GoTarget(s, a).value), b).Some?
    ensures GoTarget(s, a + b) == GoTarget(Session(s.stack, GoTarget(s, a).value), b)
  {
  }

  /** A move that happens keeps the invariant. */
  lemma GoValid(s: Session, steps: int)
    requires GoTarget(s, steps).Some?
    ensures ValidSession(Session(s.stack, GoTarget(s, steps).value))
  {
  }

  /** `go(-n)` undoes a `go(n)` that moved from an entry. */
  lemma GoInverse(s: Session, steps: int)
    requires ValidSession(s) && s.index >= 0 && GoTarget(s, steps).Some?
    ensures GoTarget(Session(s.stack, GoTarget(s, steps).value), -steps) == Some(s.index)
  {
  }

  /** `forward` undoes a `back` and `back` undoes a `forward`. */
  lemma BackThenForward(s: Session)
    requires ValidSession(s) && BackTarget(s).Some?
    ensures ForwardTarget(Session(s.stack, BackTarget(s).value)) == Some(s.index)
  {
  }

  lemma ForwardThenBack(s: Session)
    requires ValidSession(s) && s.index >= 0 && ForwardTarget(s).Some?
    ensures BackTarget(Session(s.stack, ForwardTarget(s).value)) == Some(s.index)
  {
  }

  /** After a push from an entry, `back` returns to that entry. */
  lemma PushThenBack(s: Session, e: Entry)
    requires ValidSession(s) && s.index >= 0
    ensures BackTarget(Pushed(s, e)) == Some(s.index)
    ensures Pushed(s, e).stack[s.index] == s.stack[s.index]
  {
    var r := Pushed(s, e);
    assert r.stack[s.index] == r.stack[..r.index][s.index];
  }

  /** After a push there is nothing to go forward to. */
  lemma PushEndsForward(s: Session, e: Entry)
    requires ValidSession(s)
    ensures ForwardTarget(Pushed(s, e)).None?
  {
  }

  /** A store written by a save of a valid session restores it. */
  lemma RestoreSaved(s: Session, t: Session)
    ensures Restored(s, Some(t.stack), Some(t.index)) == t
  {
  }

  /** `init` does not check what it restores: an index stored without its
      stack breaks the invariant. */
  lemma RestoreUnchecked(e: Entry)
    ensures ValidSession(Session([], -1))
    ensures !ValidSession(Restored(Session([], -1), None, Some(5)))
    ensures !ValidSession(Restored(Session([], -1), Some([e]), Some(-2)))
  {
  }

  class History {
    var stack: seq<Entry>
    var index: int
    /** The `historyStack` and `currentIndex` keys of the store. */
    var storedStack: Option<seq<Entry>>
    var storedIndex: Option<int>

    function Current(): Session
      reads this
    {
      Session(stack, index)
    }

    ghost predicate Valid()
      reads this
    {
      ValidSession(Current())
    }

    /** The constructor: an empty stack over a store that may hold a
        previous session. */
    constructor (stackInStore: Option<seq<Entry>>, indexInStore: Option<int>)
      ensures Valid() && stack == [] && index == -1
      ensures storedStack == stackInStore && storedIndex == indexInStore
    {
      stack := [];
      index := -1;
      storedStack := stackInStore;
      storedIndex := indexInStore;
    }

    /** `saveState`. */
    method Save()
      modifies this
      ensures stack == old(stack) && index == old(index)
      ensures storedStack == Some(stack) && storedIndex == Some(index)
    {
      storedStack := Some(stack);
      storedIndex := Some(index);
    }

    /** `init`. */
    method Init()
      modifies this
      ensures Current() == Restored(old(Current()), old(storedStack), old(storedIndex))
      ensures storedStack == old(storedStack) && storedIndex == old(storedIndex)
    {
      if storedStack.Some? {
        stack := storedStack.value;
      }
      if storedIndex.Some? {
        index := storedIndex.value;
      }
    }

    method PushState(e: Entry) returns (ev: HistoryEvent)
      requires Valid()
      modifies this
      ensures Valid()
      ensures ev == Push(e)
      ensures Current() == Pushed(old(Current()), e)
      ensures storedStack == Some(stack) && storedIndex == Some(index)
    {
      ev := Push(e);
      stack := stack[..index + 1];
      stack := stack + [e];
      index := index + 1;
      Save();
    }

    method ReplaceState(e: Entry) returns (ev: Option<HistoryEvent>)
      requires Valid()
      modifies this
      ensures Valid()
      ensures ev.Some? <==> old(index) >= 0
      ensures ev.Some? ==> ev.value == Replace(e) && Current() == Replaced(old(Current()), e).value
                           && storedStack == Some(stack) && storedIndex == Some(index)
      ensures ev.None? ==> unchanged(this)
    {
      ev := None;
      if index >= 0 {
        ev := Some(Replace(e));
        stack := stack[index := e];
        Save();
      }
    }

    method Back() returns (ev: Option<HistoryEvent>)
      requires Valid()
      modifies this
      ensures Valid() && stack == old(stack)
      ensures ev.Some? <==> BackTarget(old(Current())).Some?
      ensures ev.Some? ==> index == BackTarget(old(Current())).value && ev.value == HistoryEvent.Back(stack[index].url)
                           && storedStack == Some(stack) && storedIndex == Some(index)
      ensures ev.None? ==> unchanged(this)
    {
      ev := None;
      if index > 0 {
        index := index - 1;
        ev := Some(HistoryEvent.Back(stack[index].url));
        Save();
      }
    }

    method Forward() returns (ev: Option<HistoryEvent>)
      requires Valid()
      modifies this
      ensures Valid() && stack == old(stack)
      ensures ev.Some? <==> ForwardTarget(old(Current())).Some?
      ensures ev.Some? ==> index == ForwardTarget(old(Current())).value && ev.value == HistoryEvent.Forward(stack[index].url)
                           && storedStack == Some(stack) && storedIndex == Some(index)
      ensures ev.None? ==> unchanged(this)
    {
      ev := None;
      if index < |stack| - 1 {
        index := index + 1;
        ev := Some(HistoryEvent.Forward(stack[index].url));
        Save();
      }
    }

    method GoSteps(steps: int) returns (ev: Option<HistoryEvent>)
      requires Valid()
      modifies this
      ensures Valid() && stack == old(stack)
      ensures ev.Some? <==> GoTarget(old(Current()), steps).Some?
      ensures ev.Some? ==> index == GoTarget(old(Current()), steps).value && ev.value == Go(stack[index].url)
                           && storedStack == Some(stack) && storedIndex == Some(index)
      ensures ev.None? ==> unchanged(this)
    {
      ev := None;
      var newIndex := index + steps;
      if newIndex >= 0 && newIndex < |stack| {
        index := newIndex;
        ev := Some(Go(stack[newIndex].url));
        Save();
      }
    }

    method AddPage(e: Entry)
      requires Valid()
      modifies this
      ensures Valid()
      ensures Current() == Added(old(Current()), e)
      ensures storedStack == Some(stack) && storedIndex == Some(index)
    {
      stack := stack + [e];
      index := |stack| - 1;
      Save();
    }

    method ClearHistory() returns (ev: HistoryEvent)
      requires Valid()
      modifies this
      ensures Valid() && stack == [] && index == -1
      ensures storedStack == None && storedIndex == None
      ensures ev == Clear
    {
      stack := [];
      index := -1;
      storedStack := None;
      storedIndex := None;
      ev := Clear;
    }
  }
}
