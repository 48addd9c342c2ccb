/**
 The queue of a series (SeriesWork in workflow/src/factory/Workflow.cc): a ring that doubles when
 it is full, followed by an optional last task.
 */
module SeriesWork {

  class SubTask {
    var pointer: SeriesWork?

    constructor ()
      ensures pointer == null
    {
      pointer := null;
    }
  }

  // Position `i` of a ring of `size` places that starts at `front`.
  function Slot(front: int, i: int, size: int): int {
    if front + i < size then front + i else front + i - size
  }

  class SeriesWork {
    var queue: array<SubTask?>
    var queueSize: int
    var front: int
    var back: int
    const first: SubTask
    var last: SubTask?
    var canceled: bool
    var finished: bool
    var inParallel: bool
    var hasCallback: bool
    ghost var items: seq<SubTask>      // what the ring holds
    ghost var deleted: seq<SubTask>    // the tasks deleted without having been run
    ghost var callbacks: nat           // how often the series' callback was called
    ghost var gone: bool               // the series has deleted itself

    constructor (firstTask: SubTask, hasCallback: bool)
      requires firstTask.pointer == null
      modifies firstTask
      ensures Valid() && Contents() == [] && deleted == [] && callbacks == 0 && !canceled && !finished
      ensures this.hasCallback == hasCallback && !inParallel
      ensures first == firstTask && firstTask.pointer == this && fresh(queue) && queueSize == 4
    {
      queue := new SubTask?[4](_ => null);
      queueSize, front, back := 4, 0, 0;
      canceled, finished, inParallel, this.hasCallback := false, false, false, hasCallback;
      first, last := firstTask, null;
      items, deleted, callbacks, gone := [], [], 0, false;
      new;
      firstTask.pointer := this;
    }

    // The ring holds `items` from `front` on.
    ghost predicate Holds()
      reads this`queue, this`queueSize, this`front, this`back, this`items, queue
    {
      && queueSize == queue.Length && 0 <= front < queueSize && 0 <= back < queueSize && |items| <= queueSize
      && back == Slot(front, |items|, queueSize)
      && forall i :: 0 <= i < |items| ==> queue[Slot(front, i, queueSize)] == items[i]
    }

    ghost predicate Shaped()
      reads this`queue, this`queueSize, this`front, this`back, this`items, queue
    {
      Holds() && |items| < queueSize
    }

    // Nobody may use a series that has deleted itself.
    ghost predicate Valid()
      reads this`queue, this`queueSize, this`front, this`back, this`items, this`gone, queue
    {
      Shaped() && !gone
    }

    // The series is over: its callback has been called if it has one, and unless a parallel task
    // owns it, it is gone.
    twostate predicate Ended()
      reads this`finished, this`callbacks, this`gone, this`hasCallback, this`inParallel
    {
      finished && gone == !inParallel && callbacks == old(callbacks) + if old(hasCallback) then 1 else 0
    }

    twostate predicate NotEnded()
      reads this`finished, this`callbacks, this`gone
    {
      finished == old(finished) && callbacks == old(callbacks) && gone == old(gone)
    }

    ghost function Contents(): seq<SubTask>
      reads this`items, this`last
    {
      if last == null then items else items + [last]
    }

    // The ring is full: everything moves to the front of one twice as long.
    method ExpandQueue()
      requires Holds() && front == back && |items| == queueSize > 0
      modifies this`queue, this`queueSize, this`front, this`back
      ensures Shaped() && fresh(queue) && queueSize == 2 * old(queueSize)
    {
      var size := 2 * queueSize;
      var bigger := new SubTask?[size](_ => null);
      var i, j := 0, front;
      bigger[i] := queue[j];
      i, j := i + 1, j + 1;
      if j == queueSize {
        j := 0;
      }
      while j != back
        modifies bigger
        invariant 1 <= i <= queueSize && j == (if i < queueSize then Slot(front, i, queueSize) else front)
        invariant forall k :: 0 <= k < i ==> bigger[k] == items[k]
        decreases queueSize - i
      {
        bigger[i] := queue[j];
        i, j := i + 1, j + 1;
        if j == queueSize {
          j := 0;
        }
      }
      queue := bigger;
      queueSize := size;
      front := 0;
      back := i;
    }

    method PushFront(task: SubTask)
      requires Valid()
      modifies this`queue, this`queueSize, this`front, this`back, this`items, queue, task`pointer
      ensures Valid() && items == [task] + old(items) && task.pointer == this
      ensures queue == old(queue) || fresh(queue)
    {
      front := front - 1;
      if front == -1 {
        front := queueSize - 1;
      }
      task.pointer := this;
      queue[front] := task;
      items := [task] + items;
      if front == back {
        ExpandQueue();
      }
    }

    method PushBack(task: SubTask)
      requires Valid()
      modifies this`queue, this`queueSize, this`front, this`back, this`items, queue, task`pointer
      ensures Valid() && items == old(items) + [task] && task.pointer == this
      ensures queue == old(queue) || fresh(queue)
    {
      task.pointer := this;
      queue[back] := task;
      back := back + 1;
      if back == queueSize {
        back := 0;
      }
      items := items + [task];
      if front == back {
        ExpandQueue();
      }
    }

    // pop_task: the next task; when there is none, the series is over.
    method PopTask() returns (task: SubTask?)
      requires Valid()
      modifies this`front, this`last, this`finished, this`items, this`callbacks, this`gone
      ensures Shaped()
      ensures old(Contents()) != [] ==> task == old(Contents())[0] && Contents() == old(Contents())[1..] && NotEnded()
      ensures old(Contents()) == [] ==> task == null && Contents() == [] && Ended()
    {
      if front != back {
        task := queue[front];
        front := front + 1;
        if front == queueSize {
          front := 0;
        }
        items := items[1..];
      } else {
        task := last;
        last := null;
      }
      if task == null {
        finished := true;
        if hasCallback {
          callbacks := callbacks + 1;
        }
        if !inParallel {
          gone := true;
        }
      }
    }

    // Deletes `task` and whatever comes after it; `all` is what there is to delete.
    method Drain(task0: SubTask?, ghost all: seq<SubTask>)
      requires Shaped() && (task0 != null ==> !gone)
      requires if task0 == null then all == [] && Contents() == [] else all == [task0] + Contents()
      modifies this`front, this`last, this`finished, this`items, this`callbacks, this`deleted, this`gone
      ensures Shaped() && Contents() == [] && deleted == old(deleted) + all
      ensures if task0 != null then Ended() else NotEnded()
    {
      hide Holds, Contents;
      var task := task0;
      ghost var k := 0;
      while task != null
        invariant Shaped() && 0 <= k <= |all| && deleted == old(deleted) + all[..k]
        invariant Contents() == all[if k < |all| then k + 1 else k..]
        invariant task == null <==> k == |all|
        invariant task != null ==> task == all[k] && !gone
        invariant if task0 != null && task == null then Ended() else NotEnded()
        decreases |all| - k
      {
        assert all[..k + 1] == all[..k] + [task];
        deleted := deleted + [task];
        ghost var rest := all[k + 1..];
        assert rest != [] ==> rest[1..] == all[k + 2..];
        task := PopTask();
        k := k + 1;
      }
    }

    // pop: a canceled series deletes everything that is left.
    method Pop() returns (task: SubTask?)
      requires Valid()
      modifies this`front, this`last, this`finished, this`items, this`callbacks, this`deleted, this`gone
      ensures Shaped()
      ensures !canceled && old(Contents()) != [] ==>
        task == old(Contents())[0] && Contents() == old(Contents())[1..] && NotEnded()
      ensures canceled || old(Contents()) == [] ==> task == null && Contents() == [] && Ended()
      ensures deleted == if canceled then old(deleted) + old(Contents()) else old(deleted)
    {
      hide Holds;
      var wasCanceled := canceled;
      ghost var all := Contents();
      task := PopTask();
      if !wasCanceled {
        return;
      }
      Drain(task, all);
      task := null;
    }

    // dismiss_recursive: the series is not going to run; all its tasks are deleted, and it ends
    // without a callback.
    method Dismiss()
      requires Valid()
      modifies this`front, this`last, this`finished, this`items, this`callbacks, this`deleted, this`gone,
        this`hasCallback
      ensures Shaped() && Contents() == [] && deleted == old(deleted) + [first] + old(Contents())
      ensures finished && gone == !inParallel && callbacks == old(callbacks) && !hasCallback
    {
      hasCallback := false;
      Drain(first, [first] + Contents());
    }
  }

  // The buffer of a parallel task holds pointers of two kinds.
  datatype Pointer = Null | ToTask(task: SubTask) | ToSeries(series: SeriesWork)

  ghost function Firsts(s: seq<SeriesWork>): (r: seq<Pointer>)
    ensures |r| == |s| && forall i :: 0 <= i < |r| ==> r[i] == ToTask(s[i].first)
  {
    seq(|s|, i requires 0 <= i < |s| => ToTask(s[i].first))
  }

  ghost function Pointers(s: seq<SeriesWork>): (r: seq<Pointer>)
    ensures |r| == |s| && forall i :: 0 <= i < |r| ==> r[i] == ToSeries(s[i])
  {
    seq(|s|, i requires 0 <= i < |s| => ToSeries(s[i]))
  }

  lemma OneMore(s: seq<SeriesWork>, x: SeriesWork)
    ensures Firsts(s + [x]) == Firsts(s) + [ToTask(x.first)] && Pointers(s + [x]) == Pointers(s) + [ToSeries(x)]
  {
  }

  // The series of a parallel task, and the first task of each: two arrays in one buffer.
  class ParallelWork {
    var buf: array<Pointer>
    var bufSize: nat
    var subtasksNr: nat
    ghost var allSeries: seq<SeriesWork>

    constructor ()
      ensures Valid() && allSeries == [] && fresh(buf)
    {
      buf := new Pointer[8](_ => Null);
      bufSize, subtasksNr := 4, 0;
      allSeries := [];
    }

    ghost predicate Valid()
      reads this, buf
    {
      && bufSize > 0 && buf.Length == 2 * bufSize && subtasksNr == |allSeries| <= bufSize
      && buf[..subtasksNr] == Firsts(allSeries) && buf[bufSize..bufSize + subtasksNr] == Pointers(allSeries)
    }

    // memcpy
    static method Move(from: array<Pointer>, at: nat, to: array<Pointer>, place: nat, n: nat)
      requires from != to && at + n <= from.Length && place + n <= to.Length
      modifies to
      ensures to[..place] == old(to[..place]) && to[place..place + n] == from[at..at + n]
      ensures to[place + n..] == old(to[place + n..])
    {
      for i := 0 to n
        invariant to[..place] == old(to[..place]) && to[place..place + i] == from[at..at + i]
        invariant to[place + n..] == old(to[place + n..])
      {
        to[place + i] := from[at + i];
        assert to[place..place + i + 1] == to[place..place + i] + [from[at + i]];
      }
    }

    // expand_buf: both halves move, the second one to the middle of the new buffer.
    method ExpandBuf()
      requires Valid()
      modifies this`buf, this`bufSize
      ensures Valid() && fresh(buf) && bufSize == 2 * old(bufSize)
    {
      hide Firsts, Pointers;
      var bigger := new Pointer[4 * bufSize](_ => Null);
      Move(buf, 0, bigger, 0, subtasksNr);
      ghost var half := bigger[..2 * bufSize];
      assert half[..subtasksNr] == bigger[..subtasksNr];
      Move(buf, bufSize, bigger, 2 * bufSize, subtasksNr);
      assert half[..subtasksNr] == bigger[..subtasksNr];
      buf := bigger;
      bufSize := 2 * bufSize;
    }

    method AddSeries(series: SeriesWork)
      requires Valid() && !series.inParallel
      modifies this, buf, series`inParallel
      ensures Valid() && allSeries == old(allSeries) + [series] && series.inParallel
      ensures buf == old(buf) || fresh(buf)
    {
      if subtasksNr == bufSize {
        ExpandBuf();
      }
      OneMore(allSeries, series);
      hide Firsts, Pointers;
      series.inParallel := true;
      buf[bufSize + subtasksNr] := ToSeries(series);
      buf[subtasksNr] := ToTask(series.first);
      assert buf[..subtasksNr + 1] == buf[..subtasksNr] + [ToTask(series.first)];
      assert buf[bufSize..bufSize + subtasksNr + 1] == buf[bufSize..bufSize + subtasksNr] + [ToSeries(series)];
      subtasksNr := subtasksNr + 1;
      allSeries := allSeries + [series];
    }
  }
}
