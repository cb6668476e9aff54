/** print_task: the indented listing of the process tree, walked over circular intrusive lists. */
module ProcessTree {

  // struct list_head. Finding the task a sibling node is embedded in (list_entry) is the field `entry`.
  class ListHead {
    var next: ListHead
    var entry: Task?

    constructor ()
      ensures next == this && entry == null
    {
      next, entry := this, null;
    }
  }

  class Task {
    const pid: int
    const comm: string
    const children: ListHead
    const sibling: ListHead

    // The head of a children list is embedded in no list entry; a sibling node is embedded in its task.
    constructor (pid: int, comm: string)
      ensures this.pid == pid && this.comm == comm
      ensures fresh(children) && fresh(sibling) && children != sibling
      ensures children.next == children && children.entry == null && sibling.entry == this
    {
      this.pid, this.comm := pid, comm;
      children := new ListHead();
      sibling := new ListHead();
      new;
      sibling.entry := this;
    }
  }

  // What is on one children list, in order, each with what is below it.
  datatype Forest<T> = Nil | Child(node: T, below: Forest<T>, beside: Forest<T>)

  // From pos on to the head of the list come the sibling nodes of the tasks of a forest.
  ghost predicate Holds(head: ListHead, pos: ListHead, f: Forest<Task>)
    reads *
    decreases f
  {
    match f
    case Nil => pos == head
    case Child(t, below, beside) =>
      && pos != head && pos == t.sibling && pos.entry == t
      && Holds(t.children, t.children.next, below)
      && Holds(head, pos.next, beside)
  }

  datatype Name = Name(pid: int, comm: string)

  function Names(f: Forest<Task>): Forest<Name> {
    match f
    case Nil => Nil
    case Child(t, below, beside) => Child(Name(t.pid, t.comm), Names(below), Names(beside))
  }

  datatype Line = Line(offset: int, pid: int, comm: string)

  // The listing of a forest at an offset.
  function Lines(f: Forest<Name>, offset: int): seq<Line> {
    match f
    case Nil => []
    case Child(name, below, beside) =>
      [Line(offset, name.pid, name.comm)] + (Lines(below, offset + 4) + Lines(beside, offset))
  }

  // Printing one entry and what is below it leaves what stands beside it.
  lemma PrintedOne(before: seq<Line>, f: Forest<Name>, offset: int)
    requires f.Child?
    ensures before + Lines(f, offset) ==
            before + [Line(offset, f.node.pid, f.node.comm)] + Lines(f.below, offset + 4) + Lines(f.beside, offset)
  {
  }

  // Prints what is below a task. The forest f is only there to say what the lists hold.
  method PrintTask(task: Task, offset: int, log: seq<Line>, ghost f: Forest<Task>) returns (out: seq<Line>)
    requires Holds(task.children, task.children.next, f)
    ensures out == log + Lines(Names(f), offset)
    decreases f
  {
    var bro := task.children;
    var posi := bro.next;
    out := log;
    ghost var left := f;
    while posi != bro
      invariant left == f || left < f
      invariant Holds(bro, posi, left)
      invariant out + Lines(Names(left), offset) == log + Lines(Names(f), offset)
      decreases left
    {
      var entry := posi.entry;
      PrintedOne(out, Names(left), offset);
      out := out + [Line(offset, entry.pid, entry.comm)];
      out := PrintTask(entry, offset + 4, out, left.below);
      posi := posi.next;
      left := left.beside;
    }
  }

  // m_init: the line of the first process, then everything below it.
  method PrintAll(init: Task, ghost f: Forest<Task>) returns (out: seq<Line>)
    requires Holds(init.children, init.children.next, f)
    ensures out == [Line(0, init.pid, init.comm)] + Lines(Names(f), 4)
  {
    out := PrintTask(init, 4, [Line(0, init.pid, init.comm)], f);
  }

  /* ---- Reading a listing back. ---- */

  // Reads the forest listed at an offset off the front of the lines, and returns what is left.
  function Parse(lines: seq<Line>, offset: int): (r: (Forest<Name>, seq<Line>))
    ensures |r.1| <= |lines|
    decreases |lines|
  {
    if lines == [] || lines[0].offset != offset then (Nil, lines)
    else
      var (below, rest) := Parse(lines[1..], offset + 4);
      var (beside, rest') := Parse(rest, offset);
      (Child(Name(lines[0].pid, lines[0].comm), below, beside), rest')
  }

  lemma ParseFirst(first: Line, tail: seq<Line>)
    ensures var (below, rest) := Parse(tail, first.offset + 4);
            var (beside, rest') := Parse(rest, first.offset);
            Parse([first] + tail, first.offset) == (Child(Name(first.pid, first.comm), below, beside), rest')
  {
    assert ([first] + tail)[1..] == tail;
  }

  // The listing determines the forest: what was printed is read back, up to the next line further out.
  lemma {:induction false} ParseListing(f: Forest<Name>, offset: int, rest: seq<Line>)
    requires rest != [] ==> rest[0].offset < offset
    ensures Parse(Lines(f, offset) + rest, offset) == (f, rest)
  {
    match f
    case Nil => assert [] + rest == rest;
    case Child(name, below, beside) =>
      var after := Lines(beside, offset) + rest;
      var tail := Lines(below, offset + 4) + after;
      assert Lines(f, offset) + rest == [Line(offset, name.pid, name.comm)] + tail;
      ParseFirst(Line(offset, name.pid, name.comm), tail);
      ParseListing(below, offset + 4, after);
      ParseListing(beside, offset, rest);
  }

  lemma PrintedInOrder(a: seq<Line>, b: seq<Line>, c: seq<Line>, d: seq<Line>)
    ensures a + (b + c) + d == a + (b + (c + d))
  {
  }

  // Whatever the lines, the forest read off them prints as exactly the lines it was read from.
  lemma {:induction false} ParsedPrintsBack(lines: seq<Line>, offset: int)
    ensures Lines(Parse(lines, offset).0, offset) + Parse(lines, offset).1 == lines
    decreases |lines|
  {
    if lines != [] && lines[0].offset == offset {
      var (below, rest) := Parse(lines[1..], offset + 4);
      var (beside, rest') := Parse(rest, offset);
      ParsedPrintsBack(lines[1..], offset + 4);
      ParsedPrintsBack(rest, offset);
      PrintedInOrder([lines[0]], Lines(below, offset + 4), Lines(beside, offset), rest');
      assert lines == [lines[0]] + lines[1..];
    }
  }

  // So no two process trees print alike, and lines are a listing exactly when reading them leaves nothing.
  lemma ListingDeterminesForest(f: Forest<Name>, g: Forest<Name>, offset: int)
    ensures Lines(f, offset) == Lines(g, offset) <==> f == g
  {
    ParseListing(f, offset, []);
    ParseListing(g, offset, []);
    assert Lines(f, offset) + [] == Lines(f, offset) && Lines(g, offset) + [] == Lines(g, offset);
  }

  lemma IsListing(lines: seq<Line>, offset: int)
    ensures (exists f :: lines == Lines(f, offset)) <==> Parse(lines, offset).1 == []
  {
    ParsedPrintsBack(lines, offset);
    if f :| lines == Lines(f, offset) {
      ParseListing(f, offset, []);
      assert lines + [] == lines;
    }
  }
}
