/** The file-event table of the loop and the kernel interest set that mirrors it. */
module EventLoop {
  import opened Bytes
  import opened EventTable

  /** A slot of the event array; handlers and data of an unused slot are left over from earlier use. */
  datatype Slot = Slot(mask: Mask, rproc: Handler, wproc: Handler, data: nat)

  datatype Ctl = Add | Mod | Del

  datatype Op =
    | CreateOp(fd: nat, mask: Mask, h: Handler, data: nat, refused: bool)
    | DeleteOp(fd: nat, mask: Mask)
    | ResizeOp(setsize: int)

  function Entry(e: Slot): FileEvent {
    FileEvent(if e.mask.readable then Some(e.rproc) else None, if e.mask.writable then Some(e.wproc) else None, e.data)
  }

  function TableOf(s: seq<Slot>): Table {
    map fd | 0 <= fd < |s| && s[fd].mask != NONE :: Entry(s[fd])
  }

  lemma TableUpdate(s: seq<Slot>, fd: nat, e: Slot)
    requires fd < |s|
    ensures TableOf(s[fd := e]) == if e.mask == NONE then TableOf(s) - {fd} else TableOf(s)[fd := Entry(e)]
  {
  }

  /** Slots that are not in use do not matter. */
  lemma SameTable(s: seq<Slot>, t: seq<Slot>)
    requires forall j :: 0 <= j < |s| && s[j].mask != NONE ==> j < |t| && t[j] == s[j]
    requires forall j :: 0 <= j < |t| && t[j].mask != NONE ==> j < |s| && t[j] == s[j]
    ensures TableOf(s) == TableOf(t)
  {
  }

  class FileEvents {
    var events: array<Slot>
    var maxfd: int
    var kernel: map<int, Mask>

    /** maxfd is the greatest registered descriptor or -1, and the kernel watches exactly what the table
        holds. */
    ghost predicate Valid()
      reads this, events
    {
      && -1 <= maxfd < events.Length
      && (maxfd >= 0 ==> events[maxfd].mask != NONE)
      && (forall j :: maxfd < j < events.Length ==> events[j].mask == NONE)
      && (forall fd :: fd in kernel <==> 0 <= fd < events.Length && events[fd].mask != NONE)
      && (forall fd :: fd in kernel ==> kernel[fd] == events[fd].mask)
    }

    /** The registered events. */
    ghost function Registered(): Table
      reads this, events
    {
      TableOf(events[..])
    }

    constructor (setsize: nat)
      ensures Valid() && fresh(events) && events.Length == setsize && Registered() == map[] && kernel == map[]
    {
      events := new Slot[setsize];
      maxfd := -1;
      kernel := map[];
      new;
      for i := 0 to setsize
        invariant maxfd == -1 && kernel == map[] && fresh(events) && events.Length == setsize
        invariant forall j :: 0 <= j < i ==> events[j].mask == NONE
      {
        events[i] := events[i].(mask := NONE);
      }
    }

    /** epoll_ctl: the kernel accepts an addition only for an unknown descriptor, and a change or a
        removal only for a known one. */
    method EpollCtl(op: Ctl, fd: int, mask: Mask)
      requires if op == Add then fd !in kernel else fd in kernel
      modifies this`kernel
      ensures kernel == if op == Del then old(kernel) - {fd} else old(kernel)[fd := mask]
    {
      match op
      case Del => kernel := kernel - {fd};
      case _ => kernel := kernel[fd := mask];
    }

    /** Adds or modifies, depending on the table; the kernel may refuse, for want of memory say. */
    method ApiAddEvent(fd: nat, mask: Mask, refused: bool) returns (ok: bool)
      requires Valid() && fd < events.Length
      modifies this`kernel
      ensures ok == !refused
      ensures kernel == if ok then old(kernel)[fd := Or(mask, events[fd].mask)] else old(kernel)
    {
      if refused {
        return false;
      }
      var op := if events[fd].mask == NONE then Add else Mod;
      EpollCtl(op, fd, Or(mask, events[fd].mask));
      return true;
    }

    /** Modifies or removes, depending on what is left. */
    method ApiDelEvent(fd: nat, delmask: Mask)
      requires Valid() && fd < events.Length && events[fd].mask != NONE
      modifies this`kernel
      ensures var left := Minus(events[fd].mask, delmask);
              kernel == if left == NONE then old(kernel) - {fd} else old(kernel)[fd := left]
    {
      var mask := Minus(events[fd].mask, delmask);
      EpollCtl(if mask != NONE then Mod else Del, fd, mask);
    }

    method CreateFileEvent(fd: nat, mask: Mask, proc: Handler, clientData: nat, refused: bool) returns (ok: bool)
      requires Valid() && mask != NONE
      modifies this`maxfd, this`kernel, events
      ensures Valid() && ok == (fd < events.Length && !refused)
      ensures Registered() == if ok then Created(old(Registered()), fd, mask, proc, clientData) else old(Registered())
    {
      if fd >= events.Length {
        return false;
      }
      var added := ApiAddEvent(fd, mask, refused);
      if !added {
        return false;
      }
      var fe := events[fd];
      var slot := Slot(Or(fe.mask, mask), if mask.readable then proc else fe.rproc,
                       if mask.writable then proc else fe.wproc, clientData);
      TableUpdate(events[..], fd, slot);
      events[fd] := slot;
      assert events[..] == old(events[..])[fd := slot];
      if fd > maxfd {
        maxfd := fd;
      }
      return true;
    }

    method DeleteFileEvent(fd: nat, mask: Mask)
      requires Valid()
      modifies this`maxfd, this`kernel, events
      ensures Valid()
      ensures Registered() == Deleted(old(Registered()), fd, mask)
    {
      if fd >= events.Length || events[fd].mask == NONE {
        return;
      }
      ApiDelEvent(fd, mask);
      var slot := events[fd].(mask := Minus(events[fd].mask, mask));
      TableUpdate(events[..], fd, slot);
      events[fd] := slot;
      assert events[..] == old(events[..])[fd := slot];
      if fd == maxfd && events[fd].mask == NONE {
        var j := maxfd - 1;
        while j >= 0 && events[j].mask == NONE
          invariant -1 <= j < maxfd
          invariant forall i :: j < i < events.Length ==> events[i].mask == NONE
        {
          j := j - 1;
        }
        maxfd := j;
      }
    }

    /** Refused if a registered descriptor would be cut off; otherwise nothing registered changes. */
    method ResizeSetSize(setsize: int) returns (ok: bool)
      requires Valid()
      modifies this`events
      ensures Valid() && (ok <==> setsize >= 0 && forall fd :: fd in Registered() ==> fd < setsize)
      ensures Registered() == old(Registered())
      ensures events.Length == if ok then setsize else old(events.Length)
      ensures events == old(events) || fresh(events)
    {
      if setsize == events.Length {
        return true;
      }
      if maxfd >= setsize {
        assert maxfd >= 0 ==> maxfd in Registered();
        return false;
      }
      ghost var was := events;
      var grown := new Slot[setsize];
      for i := 0 to setsize
        invariant events == was && unchanged(was)
        invariant forall j :: 0 <= j < i && j < events.Length ==> grown[j] == events[j]
      {
        if i < events.Length {
          grown[i] := events[i];
        }
      }
      for i := maxfd + 1 to setsize
        invariant events == was && unchanged(was)
        invariant forall j :: 0 <= j <= maxfd ==> grown[j] == events[j]
        invariant forall j :: maxfd < j < i ==> grown[j].mask == NONE
      {
        grown[i] := grown[i].(mask := NONE);
      }
      SameTable(events[..], grown[..]);
      events := grown;
      return true;
    }

    method GetFileEvents(fd: nat) returns (mask: Mask)
      requires Valid()
      ensures mask == MaskOf(Registered(), fd)
    {
      if fd >= events.Length {
        return NONE;
      }
      return events[fd].mask;
    }

    /** Any sequence of operations leaves the table they describe, mirrored in the kernel. */
    method Perform(ops: seq<Op>)
      requires Valid() && forall i :: 0 <= i < |ops| && ops[i].CreateOp? ==> ops[i].mask != NONE
      modifies this, events
      ensures Valid()
      ensures (Registered(), events.Length) == After(old(Registered()), old(events.Length), ops)
    {
      for i := 0 to |ops|
        invariant Valid() && (events == old(events) || fresh(events))
        invariant After(Registered(), events.Length, ops[i..]) == After(old(Registered()), old(events.Length), ops)
      {
        assert ops[i..][1..] == ops[i + 1..];
        match ops[i]
        case CreateOp(fd, mask, h, data, refused) => var _ := CreateFileEvent(fd, mask, h, data, refused);
        case DeleteOp(fd, mask) => DeleteFileEvent(fd, mask);
        case ResizeOp(setsize) => var _ := ResizeSetSize(setsize);
      }
    }
  }

  /** One operation on the table and its size. */
  function Effect(t: Table, size: nat, op: Op): (Table, nat) {
    match op
    case CreateOp(fd, mask, h, data, refused) =>
      (if fd < size && !refused then Created(t, fd, mask, h, data) else t, size)
    case DeleteOp(fd, mask) => (Deleted(t, fd, mask), size)
    case ResizeOp(setsize) => (t, if setsize >= 0 && forall fd :: fd in t ==> fd < setsize then setsize else size)
  }

  function After(t: Table, size: nat, ops: seq<Op>): (Table, nat)
    decreases |ops|
  {
    if ops == [] then (t, size)
    else
      var (t', size') := Effect(t, size, ops[0]);
      After(t', size', ops[1..])
  }
}
