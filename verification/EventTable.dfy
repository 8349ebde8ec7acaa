/** The file events of the loop as a finite map: what registering and removing a handler means. */
module EventTable {
  import opened Bytes

  datatype Handler = ReadEvent | WriteEvent | Other(proc: nat)

  datatype Mask = Mask(readable: bool, writable: bool)

  const NONE := Mask(false, false)
  const READABLE := Mask(true, false)
  const WRITABLE := Mask(false, true)

  /** A registered descriptor: the handler of each direction it is watched for, and what they are
      called with. */
  datatype FileEvent = FileEvent(onRead: Option<Handler>, onWrite: Option<Handler>, data: nat)

  type Table = map<int, FileEvent>

  function MaskOf(t: Table, fd: int): Mask {
    if fd in t then Mask(t[fd].onRead.Some?, t[fd].onWrite.Some?) else NONE
  }

  function Or(a: Mask, b: Mask): Mask {
    Mask(a.readable || b.readable, a.writable || b.writable)
  }

  function Minus(a: Mask, b: Mask): Mask {
    Mask(a.readable && !b.readable, a.writable && !b.writable)
  }

  /** The table after a handler was registered for the directions of mask. */
  function Created(t: Table, fd: int, mask: Mask, h: Handler, data: nat): Table {
    var read := if mask.readable then Some(h) else if fd in t then t[fd].onRead else None;
    var write := if mask.writable then Some(h) else if fd in t then t[fd].onWrite else None;
    t[fd := FileEvent(read, write, data)]
  }

  /** The table after the directions of mask were removed. */
  function Deleted(t: Table, fd: int, mask: Mask): Table {
    if fd !in t then t
    else
      var left := Minus(MaskOf(t, fd), mask);
      if left == NONE then t - {fd}
      else
        t[fd := FileEvent(if left.readable then t[fd].onRead else None,
                          if left.writable then t[fd].onWrite else None, t[fd].data)]
  }

  /** Registering both directions one after the other, in either order, and removing them again, in
      either order, leaves no trace. */
  lemma CreateThenDelete(t: Table, fd: int, a: Mask, b: Mask, h: Handler, g: Handler, data: nat)
    requires fd !in t && a != NONE && b != NONE && Or(a, b) == Mask(true, true)
    ensures var u := Created(Created(t, fd, a, h, data), fd, b, g, data);
            && MaskOf(u, fd) == Mask(true, true)
            && Deleted(Deleted(u, fd, a), fd, b) == t == Deleted(Deleted(u, fd, b), fd, a)
  {
    var u := Created(Created(t, fd, a, h, data), fd, b, g, data);
    assert u - {fd} == t;
    if Minus(Mask(true, true), a) == NONE {
      assert Deleted(u, fd, a) == t;
    } else {
      assert Deleted(u, fd, a) - {fd} == t;
    }
    if Minus(Mask(true, true), b) == NONE {
      assert Deleted(u, fd, b) == t;
    } else {
      assert Deleted(u, fd, b) - {fd} == t;
    }
  }
}
