/** The toast notification store (web/src/lib/toast/toastStore.ts): a list of toasts, newest
    first, and the ids that have a pending auto-dismiss timer. */
module ToastStore {
  import opened Wrappers
  import opened Sequences

  datatype ToastType = Success | Error | Warning | Info

  datatype Toast = Toast(id: string, toastType: ToastType, message: string, duration: int, dismissible: bool, timestamp: int)

  /** What a caller passes to addToast: everything but id and timestamp, with duration and
      dismissible optional. */
  datatype ToastRequest = ToastRequest(toastType: ToastType, message: string, duration: Option<int>, dismissible: Option<bool>)

  /** Fields of the initial state; `MaxVisible` is declared there but nothing reads it. */
  const MaxVisible: int := 3
  const DefaultDuration: int := 5000

  /** The toasts without those carrying `id`, the others kept in order. */
  function WithoutId(toasts: seq<Toast>, id: string): (kept: seq<Toast>)
    decreases |toasts|
  {
    if toasts == [] then []
    else
      var rest := WithoutId(toasts[..|toasts| - 1], id);
      if toasts[|toasts| - 1].id != id then rest + [toasts[|toasts| - 1]] else rest
  }

  /** The ids of the listed toasts. */
  function Ids(toasts: seq<Toast>): set<string> {
    set t | t in toasts :: t.id
  }

  /** The toast addToast builds: duration defaults to 5000 and dismissible to true. */
  function NewToast(request: ToastRequest, id: string, timestamp: int): Toast {
    Toast(id, request.toastType, request.message, request.duration.GetOr(DefaultDuration),
          request.dismissible.GetOr(true), timestamp)
  }

  class Store {
    var toasts: seq<Toast>
    /** The ids with a pending auto-dismiss timer (the keys of the timers map). */
    var timers: set<string>

    /** Every pending timer belongs to a toast on the list. */
    ghost predicate Valid()
      reads this
    {
      timers <= Ids(toasts)
    }

    constructor()
      ensures toasts == [] && timers == {}
      ensures Valid()
    {
      toasts := [];
      timers := {};
    }

    /** addToast, with the generated id and the clock reading passed in: the new toast goes in
        front of the existing ones, a timer is registered for it when its duration is
        positive, and its id is returned. */
    method AddToast(request: ToastRequest, id: string, timestamp: int) returns (r: string)
      requires Valid()
      modifies this
      ensures Valid()
      ensures r == id
      ensures toasts == [NewToast(request, id, timestamp)] + old(toasts)
      ensures timers == if request.duration.GetOr(DefaultDuration) > 0 then old(timers) + {id} else old(timers)
    {
      var duration := request.duration.GetOr(DefaultDuration);
      var newToast := Toast(id, request.toastType, request.message, duration, request.dismissible.GetOr(true), timestamp);
      toasts := [newToast] + toasts;
      assert newToast in toasts;
      if duration > 0 {
        timers := timers + {id};
      }
      return id;
    }

    /** removeToast: drops the id's timer and every toast with the id. */
    method RemoveToast(id: string)
      requires Valid()
      modifies this
      ensures Valid()
      ensures toasts == WithoutId(old(toasts), id)
      ensures timers == old(timers) - {id}
    {
      if id in timers {
        timers := timers - {id};
      }
      WithoutIdIds(toasts, id);
      toasts := WithoutId(toasts, id);
    }

    /** clearAll: no toasts and no pending timers. */
    method ClearAll()
      modifies this
      ensures Valid()
      ensures toasts == [] && timers == {}
    {
      timers := {};
      toasts := [];
    }

    /** showSuccess: a success toast lasting 3000 ms unless told otherwise. */
    method ShowSuccess(message: string, duration: Option<int>, id: string, timestamp: int) returns (r: string)
      requires Valid()
      modifies this
      ensures Valid()
      ensures r == id
      ensures toasts == [Toast(id, Success, message, duration.GetOr(3000), true, timestamp)] + old(toasts)
      ensures timers == if duration.GetOr(3000) > 0 then old(timers) + {id} else old(timers)
    {
      r := AddToast(ToastRequest(Success, message, Some(duration.GetOr(3000)), None), id, timestamp);
    }

    /** showError: an error toast lasting 7000 ms unless told otherwise. */
    method ShowError(message: string, duration: Option<int>, id: string, timestamp: int) returns (r: string)
      requires Valid()
      modifies this
      ensures Valid()
      ensures r == id
      ensures toasts == [Toast(id, Error, message, duration.GetOr(7000), true, timestamp)] + old(toasts)
      ensures timers == if duration.GetOr(7000) > 0 then old(timers) + {id} else old(timers)
    {
      r := AddToast(ToastRequest(Error, message, Some(duration.GetOr(7000)), None), id, timestamp);
    }

    /** showWarning: a warning toast lasting 5000 ms unless told otherwise. */
    method ShowWarning(message: string, duration: Option<int>, id: string, timestamp: int) returns (r: string)
      requires Valid()
      modifies this
      ensures Valid()
      ensures r == id
      ensures toasts == [Toast(id, Warning, message, duration.GetOr(5000), true, timestamp)] + old(toasts)
      ensures timers == if duration.GetOr(5000) > 0 then old(timers) + {id} else old(timers)
    {
      r := AddToast(ToastRequest(Warning, message, Some(duration.GetOr(5000)), None), id, timestamp);
    }

    /** showInfo: an info toast lasting 4000 ms unless told otherwise. */
    method ShowInfo(message: string, duration: Option<int>, id: string, timestamp: int) returns (r: string)
      requires Valid()
      modifies this
      ensures Valid()
      ensures r == id
      ensures toasts == [Toast(id, Info, message, duration.GetOr(4000), true, timestamp)] + old(toasts)
      ensures timers == if duration.GetOr(4000) > 0 then old(timers) + {id} else old(timers)
    {
      r := AddToast(ToastRequest(Info, message, Some(duration.GetOr(4000)), None), id, timestamp);
    }
  }

  /** Removing by id leaves no toast with that id and keeps exactly the others. */
  lemma {:induction false} WithoutIdMeaning(toasts: seq<Toast>, id: string)
    ensures forall k :: 0 <= k < |WithoutId(toasts, id)| ==> WithoutId(toasts, id)[k].id != id
    ensures forall t :: t in WithoutId(toasts, id) <==> t in toasts && t.id != id
    decreases |toasts|
  {
    if toasts != [] {
      var init := toasts[..|toasts| - 1];
      WithoutIdMeaning(init, id);
      assert toasts == init + [toasts[|toasts| - 1]];
    }
  }

  /** The ids left are the ids there were, less the removed one. */
  lemma WithoutIdIds(toasts: seq<Toast>, id: string)
    ensures Ids(WithoutId(toasts, id)) == Ids(toasts) - {id}
  {
    WithoutIdMeaning(toasts, id);
  }

  /** The toasts kept stay in their original order: a subsequence of the list. */
  lemma {:induction false} WithoutIdOrdered(toasts: seq<Toast>, id: string)
    ensures IsSubsequence(WithoutId(toasts, id), toasts)
    decreases |toasts|
  {
    if toasts == [] {
      assert Embedding([], WithoutId(toasts, id), toasts);
    } else {
      var init, last := toasts[..|toasts| - 1], toasts[|toasts| - 1];
      WithoutIdOrdered(init, id);
      assert toasts == init + [last];
      var idx: seq<nat> :| Embedding(idx, WithoutId(init, id), init);
      if last.id != id {
        EmbeddingExtend(idx, WithoutId(init, id), init, last);
        assert Embedding(idx + [|init|], WithoutId(toasts, id), toasts);
      } else {
        EmbeddingWiden(idx, WithoutId(init, id), init, last);
        assert Embedding(idx, WithoutId(toasts, id), toasts);
      }
    }
  }

  /** Removing an id no toast carries changes nothing. */
  lemma {:induction false} WithoutUnknownId(toasts: seq<Toast>, id: string)
    requires id !in Ids(toasts)
    ensures WithoutId(toasts, id) == toasts
    decreases |toasts|
  {
    if toasts != [] {
      var init := toasts[..|toasts| - 1];
      assert id !in Ids(init) by {
        forall t | t in init ensures t.id != id {
          assert t in toasts;
        }
      }
      WithoutUnknownId(init, id);
    }
  }

  /** Adding a toast under a fresh id and then removing that id gives the list back. */
  lemma AddThenRemoveRestores(toasts: seq<Toast>, t: Toast)
    requires t.id !in Ids(toasts)
    ensures WithoutId([t] + toasts, t.id) == toasts
  {
    WithoutPrepend(t, toasts);
    WithoutUnknownId(toasts, t.id);
  }

  lemma {:induction false} WithoutPrepend(t: Toast, toasts: seq<Toast>)
    ensures WithoutId([t] + toasts, t.id) == WithoutId(toasts, t.id)
    decreases |toasts|
  {
    if toasts != [] {
      var init := toasts[..|toasts| - 1];
      WithoutPrepend(t, init);
      assert ([t] + toasts)[..|toasts|] == [t] + init;
    }
  }
}
