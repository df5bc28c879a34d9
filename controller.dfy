// The game controller's state history: a fixed-capacity ring of input
// snapshots that overwrites its oldest entry when full, with per-entry
// "obtained" flags recording which snapshots the game has already read.
module Controller {
  import opened Types

  /** Capacity of the ring, taken as 64 (its header is not part of this
      model); the proofs use only that it is at least 2. */
  const MaxStates: nat := 64

  /** Button bits of the L2 and R2 triggers. */
  const L2: bv32 := 0x100
  const R2: bv32 := 0x200

  datatype Axis = LeftX | LeftY | RightX | RightY | TriggerLeft | TriggerRight

  datatype Axes = Axes(leftX: int, leftY: int, rightX: int, rightY: int, triggerLeft: int, triggerRight: int)

  function AxisValue(axes: Axes, axis: Axis): int {
    match axis
    case LeftX => axes.leftX
    case LeftY => axes.leftY
    case RightX => axes.rightX
    case RightY => axes.rightY
    case TriggerLeft => axes.triggerLeft
    case TriggerRight => axes.triggerRight
  }

  /** `axes[axis] = value`. */
  function SetAxis(axes: Axes, axis: Axis, value: int): (r: Axes)
    ensures AxisValue(r, axis) == value
    ensures forall a :: a != axis ==> AxisValue(r, a) == AxisValue(axes, a)
  {
    match axis
    case LeftX => axes.(leftX := value)
    case LeftY => axes.(leftY := value)
    case RightX => axes.(rightX := value)
    case RightY => axes.(rightY := value)
    case TriggerLeft => axes.(triggerLeft := value)
    case TriggerRight => axes.(triggerRight := value)
  }

  /** A single-precision float, kept as its 32-bit pattern: sensor readings
      are only copied here, never computed on. */
  type F32Bits = u32

  datatype Vec3 = Vec3(x: F32Bits, y: F32Bits, z: F32Bits)

  /** One touchpad contact; x and y are already in touchpad pixels. */
  datatype Touch = Touch(down: bool, x: u16, y: u16)

  /** One input snapshot. */
  datatype State = State(
    buttons: bv32,
    time: u64,
    axes: Axes,
    touch0: Touch,
    touch1: Touch,
    angularVelocity: Vec3,
    acceleration: Vec3)

  /** A ring entry: a snapshot and whether the game has obtained it. */
  datatype Entry = Entry(state: State, obtained: bool)

  // ---------------------------------------------------------------------
  // State edits
  // ---------------------------------------------------------------------

  /** Sets the `button` bits when pressed and clears them otherwise: the
      result is the old buttons with those bits cleared, then set again
      when pressed. */
  function ApplyButton(buttons: bv32, button: bv32, isPressed: bool): (r: bv32)
    ensures r == (buttons & !button) | (if isPressed then button else 0)
  {
    if isPressed then buttons | button else buttons & !button
  }

  /** A button edit leaves every other button bit as it was. */
  lemma ApplyButtonKeepsOthers(buttons: bv32, button: bv32, isPressed: bool)
    ensures ApplyButton(buttons, button, isPressed) & !button == buttons & !button
  {
    var r := ApplyButton(buttons, button, isPressed);
    if isPressed {
      assert r == buttons | button;
    } else {
      assert r == buttons & !button;
    }
  }

  /** After a button edit the `button` bits are all set when pressed and all
      clear when released. */
  lemma ApplyButtonSets(buttons: bv32, button: bv32, isPressed: bool)
    ensures ApplyButton(buttons, button, isPressed) & button == if isPressed then button else 0
  {
    var r := ApplyButton(buttons, button, isPressed);
    if isPressed {
      assert r == buttons | button;
    } else {
      assert r == buttons & !button;
    }
  }

  /** The button bit a trigger axis drives. */
  function TriggerButton(axis: Axis): bv32
    requires axis == TriggerLeft || axis == TriggerRight
  {
    if axis == TriggerLeft then L2 else R2
  }

  /** The edit Axis makes: stores the value, and for the two triggers sets
      the trigger's button bit exactly when the value is positive (see
      SetAxis and ApplyButton for what each part keeps). */
  function WithAxis(s: State, axis: Axis, value: int): (r: State)
    ensures r.axes == SetAxis(s.axes, axis, value)
    ensures axis == TriggerLeft || axis == TriggerRight ==> r.buttons == ApplyButton(s.buttons, TriggerButton(axis), value > 0)
    ensures axis != TriggerLeft && axis != TriggerRight ==> r.buttons == s.buttons
    ensures r.(axes := s.axes, buttons := s.buttons) == s
  {
    var s' := s.(axes := SetAxis(s.axes, axis, value));
    if axis == TriggerLeft then s'.(buttons := ApplyButton(s'.buttons, L2, value > 0))
    else if axis == TriggerRight then s'.(buttons := ApplyButton(s'.buttons, R2, value > 0))
    else s'
  }

  /** Records contact `index` (0 or 1) of the touchpad. */
  function WithTouch(s: State, index: nat, t: Touch): (r: State)
    requires index < 2
    ensures index == 0 ==> r == s.(touch0 := t)
    ensures index == 1 ==> r == s.(touch1 := t)
  {
    if index == 0 then s.(touch0 := t) else s.(touch1 := t)
  }

  // ---------------------------------------------------------------------
  // The ring, as a sequence of entries from oldest to newest
  // ---------------------------------------------------------------------

  /** The ring after appending `s`: when full, exactly the oldest entry is
      dropped; the new entry is not obtained. */
  function Push(ring: seq<Entry>, s: State): (r: seq<Entry>)
    requires |ring| <= MaxStates
    ensures |r| == if |ring| == MaxStates then MaxStates else |ring| + 1
    ensures r[|r| - 1] == Entry(s, false)
    ensures r[..|r| - 1] == ring[|ring| + 1 - |r|..]
  {
    (if |ring| == MaxStates then ring[1..] else ring) + [Entry(s, false)]
  }

  /** The snapshots not yet obtained, oldest first. */
  function Unread(es: seq<Entry>): (r: seq<State>)
    ensures |r| <= |es|
  {
    if es == [] then []
    else
      var last := es[|es| - 1];
      Unread(es[..|es| - 1]) + (if last.obtained then [] else [last.state])
  }

  /** How many snapshots a read into a buffer of `k` entries delivers. */
  function Taken(k: int, available: nat): (r: nat)
    ensures r <= available
    ensures k <= 0 ==> r == 0
    ensures 0 < k ==> r == Min(k, available)
  {
    if k <= 0 then 0 else Min(k, available)
  }

  /** The ring after a read into a buffer of `k` entries: an entry becomes
      obtained when fewer than `k` unread entries precede it. */
  function MarkRead(es: seq<Entry>, k: int): (r: seq<Entry>)
    ensures |r| == |es|
  {
    if es == [] then []
    else
      var front, last := es[..|es| - 1], es[|es| - 1];
      MarkRead(front, k) + [last.(obtained := last.obtained || |Unread(front)| < k)]
  }

  /** Whether entry j is obtained after a read into a buffer of `k` entries. */
  function ReadFlag(es: seq<Entry>, k: int, j: nat): bool
    requires j < |es|
  {
    es[j].obtained || |Unread(es[..j])| < k
  }

  /** Entry j after a read: obtained if it was, or if fewer than `k` unread
      entries precede it; its snapshot is unchanged. */
  lemma {:induction false} MarkReadAt(es: seq<Entry>, k: int, j: nat)
    requires j < |es|
    ensures MarkRead(es, k)[j] == es[j].(obtained := ReadFlag(es, k, j))
  {
    var front := es[..|es| - 1];
    if j < |es| - 1 {
      MarkReadAt(front, k, j);
      assert front[..j] == es[..j];
    } else {
      assert front == es[..j];
    }
  }

  /** The unread entries of a prefix are a prefix of the unread entries. */
  lemma {:induction false} UnreadPrefix(es: seq<Entry>, i: nat)
    requires i <= |es|
    ensures |Unread(es[..i])| <= |Unread(es)|
    ensures Unread(es[..i]) == Unread(es)[..|Unread(es[..i])|]
  {
    if i < |es| {
      var front := es[..|es| - 1];
      assert es[..i] == front[..i];
      UnreadPrefix(front, i);
    } else {
      assert es[..i] == es;
    }
  }

  /** Extending a prefix by one entry adds that entry's snapshot exactly
      when it is unread. */
  lemma UnreadStep(es: seq<Entry>, i: nat)
    requires i < |es|
    ensures Unread(es[..i + 1]) == Unread(es[..i]) + if es[i].obtained then [] else [es[i].state]
  {
    assert es[..i + 1][..i] == es[..i];
  }

  /** Overwriting the element just after a prefix. */
  lemma WriteAfter<T>(prefix: seq<T>, rest: seq<T>, x: T)
    requires |rest| > 0
    ensures (prefix + rest)[|prefix| := x] == prefix + [x] + rest[1..]
  {
  }

  /** Unread of a ring extended by one entry. */
  lemma UnreadSnoc(es: seq<Entry>, e: Entry)
    ensures Unread(es + [e]) == Unread(es) + if e.obtained then [] else [e.state]
  {
    assert (es + [e])[..|es|] == es;
  }

  /** A read delivers the oldest unread snapshots and leaves the rest unread:
      what was unread is what was delivered followed by what is still unread. */
  lemma {:induction false} ReadConsumes(es: seq<Entry>, k: int)
    ensures Unread(es) == Unread(es)[..Taken(k, |Unread(es)|)] + Unread(MarkRead(es, k))
  {
    if es != [] {
      var front, last := es[..|es| - 1], es[|es| - 1];
      ReadConsumes(front, k);
      var before, rest := Unread(front), Unread(MarkRead(front, k));
      var last' := last.(obtained := last.obtained || |before| < k);
      assert es == front + [last];
      UnreadSnoc(front, last);
      UnreadSnoc(MarkRead(front, k), last');
      assert MarkRead(es, k) == MarkRead(front, k) + [last'];
      var t := Taken(k, |before|);
      if last.obtained {
        assert Unread(es) == before;
        assert Unread(MarkRead(es, k)) == rest;
      } else if |before| < k {
        var all := before + [last.state];
        assert Unread(es) == all;
        assert Unread(MarkRead(es, k)) == rest == [];
        assert Taken(k, |all|) == |all|;
        assert all[..|all|] == all;
      } else {
        var all := before + [last.state];
        assert Unread(es) == all;
        assert Unread(MarkRead(es, k)) == rest + [last.state];
        assert Taken(k, |all|) == t;
        assert all[..t] == before[..t];
        assert all == before[..t] + rest + [last.state];
      }
    }
  }

  /** Slot of the i-th oldest entry, for a ring whose oldest entry is in
      slot `first`: `(first + i) % MAX_STATES`, written without the remainder
      since both operands stay below the capacity. */
  function Slot(first: nat, i: nat): (r: nat)
    requires first < MaxStates && i < MaxStates
    ensures r < MaxStates
  {
    if first + i < MaxStates then first + i else first + i - MaxStates
  }

  lemma SlotIsRemainder(first: nat, i: nat)
    requires first < MaxStates && i < MaxStates
    ensures (first + i) % MaxStates == Slot(first, i)
  {
  }

  lemma SlotDistinct(first: nat, i: nat, j: nat)
    requires first < MaxStates && i < j < MaxStates
    ensures Slot(first, i) != Slot(first, j)
  {
  }

  /** Slot of the newest entry as Poll computes it, in u32 arithmetic:
      `(first - 1 + num) % MAX_STATES`. */
  function PollSlot(first: u32, num: u32): nat {
    Wrap32(Wrap32(first - 1) + num) % MaxStates
  }

  /** Although `first - 1` wraps when the first slot is 0, Poll's index is the
      newest entry's slot whenever the ring is not empty. */
  lemma PollSlotIsNewest(first: u32, num: u32)
    requires first < MaxStates && 1 <= num <= MaxStates
    ensures PollSlot(first, num) == Slot(first, num - 1)
  {
    if first == 0 {
      assert Wrap32(first - 1) == 0xFFFF_FFFF;
      assert Wrap32(0xFFFF_FFFF + num) == num - 1;
    }
  }

  /** Whole milliseconds from `since` to `now` (microseconds, u64 arithmetic). */
  function ElapsedMs(now: u64, since: u64): (r: nat)
    ensures since <= now ==> r == (now - since) / 1000
    ensures now < since ==> r == (now - since + 0x1_0000_0000_0000_0000) / 1000
  {
    Sub64(now, since) / 1000
  }

  // ---------------------------------------------------------------------
  // The ring's slots
  // ---------------------------------------------------------------------

  /** The entries of a ring stored in `st` and `ob` by slot, oldest first. */
  ghost function View(st: seq<State>, ob: seq<bool>, first: nat, num: nat): (r: seq<Entry>)
    requires |st| == MaxStates && |ob| == MaxStates && first < MaxStates && num <= MaxStates
    ensures |r| == num
  {
    if num == 0 then []
    else View(st, ob, first, num - 1) + [Entry(st[Slot(first, num - 1)], ob[Slot(first, num - 1)])]
  }

  /** Entry i of the view is what slot `first + i` holds. */
  lemma {:induction false} ViewAt(st: seq<State>, ob: seq<bool>, first: nat, num: nat, i: nat)
    requires |st| == MaxStates && |ob| == MaxStates && first < MaxStates && num <= MaxStates
    requires i < num
    ensures View(st, ob, first, num)[i] == Entry(st[Slot(first, i)], ob[Slot(first, i)])
  {
    if i < num - 1 {
      ViewAt(st, ob, first, num - 1, i);
    }
  }

  /** Writing a new snapshot into the slot after the newest entry, after
      dropping the oldest entry of a full ring, appends it to the view. */
  lemma ViewAfterAdd(st: seq<State>, ob: seq<bool>, first: nat, num: nat, first': nat, num': nat, s: State)
    requires |st| == MaxStates && |ob| == MaxStates && first < MaxStates && num <= MaxStates
    requires num == MaxStates ==> first' == Slot(first, 1) && num' == MaxStates - 1
    requires num < MaxStates ==> first' == first && num' == num
    ensures first' < MaxStates && num' < MaxStates
    ensures var index := Slot(first', num');
            View(st[index := s], ob[index := false], first', num' + 1) == Push(View(st, ob, first, num), s)
  {
    var index := Slot(first', num');
    var ring := View(st, ob, first, num);
    var r := View(st[index := s], ob[index := false], first', num' + 1);
    var p := Push(ring, s);
    forall i | 0 <= i < num'
      ensures r[i] == p[i]
    {
      ViewAt(st[index := s], ob[index := false], first', num' + 1, i);
      SlotDistinct(first', i, num');
      if num == MaxStates {
        assert Slot(first', i) == Slot(first, i + 1);
        assert p[i] == ring[i + 1];
        ViewAt(st, ob, first, num, i + 1);
      } else {
        assert p[i] == ring[i];
        ViewAt(st, ob, first, num, i);
      }
    }
  }

  /** Giving each entry the flag that a read into a buffer of `k` entries
      would give it turns the view into MarkRead of it. */
  lemma ViewAfterRead(st: seq<State>, ob: seq<bool>, ob': seq<bool>, first: nat, num: nat, k: int)
    requires |st| == MaxStates && |ob| == MaxStates && |ob'| == MaxStates && first < MaxStates && num <= MaxStates
    requires forall j :: 0 <= j < num ==> ob'[Slot(first, j)] == ReadFlag(View(st, ob, first, num), k, j)
    ensures View(st, ob', first, num) == MarkRead(View(st, ob, first, num), k)
  {
    var ring := View(st, ob, first, num);
    var r := View(st, ob', first, num);
    forall j | 0 <= j < num
      ensures r[j] == MarkRead(ring, k)[j]
    {
      MarkReadAt(ring, k, j);
      ViewAt(st, ob, first, num, j);
      ViewAt(st, ob', first, num, j);
    }
  }

  /** The flags after the read loop has visited the `i` oldest entries of
      `ring`: each visited entry's slot holds its flag after the read. */
  ghost function Marked(ob: seq<bool>, first: nat, ring: seq<Entry>, k: int, i: nat): (r: seq<bool>)
    requires |ob| == MaxStates && first < MaxStates && i <= |ring| <= MaxStates
    ensures |r| == MaxStates
  {
    if i == 0 then ob
    else Marked(ob, first, ring, k, i - 1)[Slot(first, i - 1) := ReadFlag(ring, k, i - 1)]
  }

  lemma {:induction false} MarkedAt(ob: seq<bool>, first: nat, ring: seq<Entry>, k: int, i: nat, j: nat)
    requires |ob| == MaxStates && first < MaxStates && i <= |ring| <= MaxStates
    requires j < |ring|
    ensures Marked(ob, first, ring, k, i)[Slot(first, j)] == if j < i then ReadFlag(ring, k, j) else ob[Slot(first, j)]
  {
    if i > 0 && j != i - 1 {
      MarkedAt(ob, first, ring, k, i - 1, j);
      if j < i - 1 { SlotDistinct(first, j, i - 1); } else { SlotDistinct(first, i - 1, j); }
    }
  }

  /** The read loop's state after visiting the `i` oldest entries of `ring`
      with `n` snapshots delivered: the buffer `b` starts with the unread
      snapshots seen so far and keeps the rest of its original contents
      `buf`, and the flags `o` are Marked. */
  ghost predicate ReadLoopInv(ring: seq<Entry>, ob: seq<bool>, first: nat, k: int, buf: seq<State>,
                              i: nat, n: nat, b: seq<State>, o: seq<bool>)
  {
    && |ob| == MaxStates && first < MaxStates && i <= |ring| <= MaxStates
    && n == |Unread(ring[..i])|
    && (n == 0 || n <= k)
    && n <= |buf|
    && b == Unread(ring[..i]) + buf[n..]
    && o == Marked(ob, first, ring, k, i)
  }

  /** One iteration of the read loop keeps ReadLoopInv: with room left in the
      buffer, the entry in `index` is taken exactly when it is not obtained;
      `n'`, `b'` and `o'` are the count, buffer and flags after the step. */
  lemma ReadLoopStep(st: seq<State>, ob: seq<bool>, first: nat, num: nat, k: int, buf: seq<State>, ring: seq<Entry>,
                     i: nat, n: nat, b: seq<State>, o: seq<bool>, index: nat, n': nat, b': seq<State>, o': seq<bool>)
    requires |st| == MaxStates && |ob| == MaxStates && first < MaxStates && i < num <= MaxStates
    requires ring == View(st, ob, first, num)
    requires ReadLoopInv(ring, ob, first, k, buf, i, n, b, o)
    requires n < k && n < |buf|
    requires index == Slot(first, i)
    requires n' == if o[index] then n else n + 1
    requires b' == if o[index] then b else b[n := st[index]]
    requires o' == o[index := true]
    ensures ReadLoopInv(ring, ob, first, k, buf, i + 1, n', b', o')
  {
    ViewAt(st, ob, first, num, i);
    UnreadStep(ring, i);
    MarkedAt(ob, first, ring, k, i, i);
    var prefix := Unread(ring[..i]);
    if !o[index] {
      WriteAfter(prefix, buf[n..], ring[i].state);
      assert buf[n..][1..] == buf[n + 1..];
    } else {
      assert o[index := true] == o;
    }
  }

  /** When the read loop stops after `i` entries, the flags it has left are
      those of MarkRead: an entry it did not reach has at least `k` unread
      entries before it, so a read would not have taken it either. */
  lemma LoopFlagsAreRead(st: seq<State>, ob: seq<bool>, first: nat, num: nat, k: int, i: nat, n: nat, o: seq<bool>)
    requires |st| == MaxStates && |ob| == MaxStates && first < MaxStates && i <= num <= MaxStates
    requires n == |Unread(View(st, ob, first, num)[..i])|
    requires i < num ==> n >= k
    requires o == Marked(ob, first, View(st, ob, first, num), k, i)
    ensures View(st, o, first, num) == MarkRead(View(st, ob, first, num), k)
  {
    var ring := View(st, ob, first, num);
    forall j | 0 <= j < num
      ensures o[Slot(first, j)] == ReadFlag(ring, k, j)
    {
      MarkedAt(ob, first, ring, k, i, j);
      if i <= j {
        ViewAt(st, ob, first, num, j);
        UnreadPrefix(ring[..j], i);
        assert ring[..j][..i] == ring[..i];
      }
    }
    ViewAfterRead(st, ob, o, first, num, k);
  }

  /** When the read loop stops, after `i` entries with `n` delivered (the
      whole ring, or a full buffer), it has delivered the oldest unread
      snapshots, as many as Taken says, and left MarkRead of the view. */
  lemma ReadLoopDone(st: seq<State>, ob: seq<bool>, first: nat, num: nat, k: int, buf: seq<State>,
                     i: nat, n: nat, b: seq<State>, o: seq<bool>)
    requires |st| == MaxStates && |ob| == MaxStates && first < MaxStates && num <= MaxStates
    requires ReadLoopInv(View(st, ob, first, num), ob, first, k, buf, i, n, b, o)
    requires i < num ==> n >= k
    ensures var ring := View(st, ob, first, num);
            && |o| == MaxStates
            && n == Taken(k, |Unread(ring)|)
            && b[..n] == Unread(ring)[..n]
            && b[n..] == buf[n..]
            && View(st, o, first, num) == MarkRead(ring, k)
            && Unread(ring) == Unread(ring)[..n] + Unread(View(st, o, first, num))
  {
    var ring := View(st, ob, first, num);
    UnreadPrefix(ring, i);
    if i == num {
      assert ring[..i] == ring;
    }
    assert b[..n] == Unread(ring[..i]);
    LoopFlagsAreRead(st, ob, first, num, k, i, n, o);
    ReadConsumes(ring, k);
  }

  // ---------------------------------------------------------------------
  // The read loop, over the ring's arrays
  // ---------------------------------------------------------------------

  /** One step of the read loop: an entry not yet obtained becomes obtained
      and its snapshot goes to `buffer[n]`; an obtained one is skipped. The
      ghost parameters describe the loop's progress, which the step keeps. */
  method TakeSlot(states: array<State>, obtained: array<bool>, buffer: array<State>, index: u32, n: nat,
                  ghost first: nat, ghost num: nat, ghost ob: seq<bool>, ghost k: int, ghost buf: seq<State>, ghost i: nat)
    returns (taken: bool)
    requires states.Length == MaxStates && obtained.Length == MaxStates && |ob| == MaxStates
    requires first < MaxStates && i < num <= MaxStates && buffer != states
    requires ReadLoopInv(View(states[..], ob, first, num), ob, first, k, buf, i, n, buffer[..], obtained[..])
    requires n < k && n < |buf| == buffer.Length
    requires index as nat == Slot(first, i)
    modifies buffer, obtained
    ensures taken == !old(obtained[index])
    ensures ReadLoopInv(View(states[..], ob, first, num), ob, first, k, buf, i + 1, if taken then n + 1 else n, buffer[..], obtained[..])
  {
    ghost var st, b0, o0 := states[..], buffer[..], obtained[..];
    taken := !obtained[index];
    if taken {
      obtained[index] := true;
      buffer[n] := states[index];
    }
    assert states[..] == st;
    assert obtained[..] == o0[index := true];
    assert buffer[..] == if o0[index] then b0 else b0[n := st[index]];
    ReadLoopStep(st, ob, first, num, k, buf, View(st, ob, first, num), i, n, b0, o0, index as nat,
                 if taken then n + 1 else n, buffer[..], obtained[..]);
  }

  /** Visits the ring's entries oldest first while the buffer has room,
      taking each one not yet obtained: the buffer receives the oldest
      unread snapshots, as many as Taken says, and the flags become those of
      MarkRead. */
  method ReadLoop(states: array<State>, obtained: array<bool>, first: u32, num: u32, buffer: array<State>, k: int)
    returns (n: nat)
    requires states.Length == MaxStates && obtained.Length == MaxStates
    requires first < MaxStates && num <= MaxStates && buffer != states && k <= buffer.Length
    modifies buffer, obtained
    ensures var ring := View(states[..], old(obtained[..]), first as nat, num as nat);
            && n == Taken(k, |Unread(ring)|)
            && buffer[..n] == Unread(ring)[..n]
            && buffer[n..] == old(buffer[n..])
            && View(states[..], obtained[..], first as nat, num as nat) == MarkRead(ring, k)
            && Unread(ring) == Unread(ring)[..n] + Unread(View(states[..], obtained[..], first as nat, num as nat))
  {
    ghost var st, ob, buf := states[..], obtained[..], buffer[..];
    ghost var ring := View(st, ob, first as nat, num as nat);
    n := 0;
    var i: u32 := 0;
    while i < num
      invariant i <= num
      invariant states[..] == st
      invariant ReadLoopInv(ring, ob, first as nat, k, buf, i as nat, n, buffer[..], obtained[..])
    {
      if n >= k {
        break;
      }
      SlotIsRemainder(first, i);
      var index := (first + i) % MaxStates;
      var taken := TakeSlot(states, obtained, buffer, index, n, first as nat, num as nat, ob, k, buf, i as nat);
      if taken {
        n := n + 1;
      }
      i := i + 1;
    }
    ReadLoopDone(st, ob, first as nat, num as nat, k, buf, i as nat, n, buffer[..], obtained[..]);
  }

  // ---------------------------------------------------------------------
  // The controller
  // ---------------------------------------------------------------------

  class GameController {
    var states: array<State>    // the snapshots, by slot
    var obtained: array<bool>   // per slot: has the game read this snapshot
    var firstState: u32         // slot of the oldest entry
    var statesNum: u32          // number of entries
    var lastState: State        // the most recently added snapshot
    var connected: bool
    var connectedCount: int

    ghost predicate Valid()
      reads this, states, obtained
    {
      && states.Length == MaxStates
      && obtained.Length == MaxStates
      && firstState < MaxStates
      && statesNum <= MaxStates
      && (statesNum > 0 ==> states[Slot(firstState, statesNum - 1)] == lastState)
    }

    /** The entries, oldest first. */
    ghost function Entries(): (r: seq<Entry>)
      reads this, states, obtained
      requires Valid()
      ensures |r| == statesNum
      ensures statesNum > 0 ==> r[statesNum - 1].state == lastState
    {
      var r := View(states[..], obtained[..], firstState, statesNum);
      if statesNum == 0 then r
      else ViewAt(states[..], obtained[..], firstState, statesNum, statesNum - 1); r
    }

    /** The default snapshot, the initial first slot and the connection status
        are header defaults that are not part of this model; they are given. */
    constructor (initial: State, first: u32, isConnected: bool, count: int)
      requires first < MaxStates
      ensures Valid() && fresh(states) && fresh(obtained)
      ensures Entries() == [] && lastState == initial && firstState == first
      ensures connected == isConnected && connectedCount == count
    {
      states := new State[MaxStates](_ => initial);
      obtained := new bool[MaxStates](_ => false);
      firstState := first;
      statesNum := 0;
      lastState := initial;
      connected := isConnected;
      connectedCount := count;
    }

    /** The newest snapshot; with an empty ring, the last one added. */
    function GetLastState(): (s: State)
      reads this, states, obtained
      requires Valid()
      ensures s == lastState
      ensures statesNum > 0 ==> s == Entries()[statesNum - 1].state
    {
      if statesNum == 0 then lastState
      else
        SlotIsRemainder(firstState, statesNum - 1);
        states[(firstState + statesNum - 1) % MaxStates]
    }

    /** Appends a snapshot, overwriting the oldest when the ring is full. */
    method AddState(s: State)
      requires Valid()
      modifies this`firstState, this`statesNum, this`lastState, states, obtained
      ensures Valid()
      ensures lastState == s && GetLastState() == s
      ensures Entries() == Push(old(Entries()), s)
      ensures old(statesNum) == MaxStates ==> statesNum == MaxStates && firstState == (old(firstState) + 1) % MaxStates
      ensures old(statesNum) < MaxStates ==> statesNum == old(statesNum) + 1 && firstState == old(firstState)
      ensures var written := Slot(firstState, statesNum - 1);
              && states[..] == old(states[..])[written := s]
              && obtained[..] == old(obtained[..])[written := false]
    {
      ghost var st, ob := states[..], obtained[..];
      ghost var before := Entries();
      assert before == View(st, ob, firstState as nat, statesNum as nat);
      var first, num := firstState, statesNum;
      if num >= MaxStates {
        num := MaxStates - 1;
        SlotIsRemainder(first, 1);
        first := (first + 1) % MaxStates;
      }
      SlotIsRemainder(first, num);
      var index := (first + num) % MaxStates;
      ViewAfterAdd(st, ob, firstState as nat, statesNum as nat, first as nat, num as nat, s);
      states[index] := s;
      lastState := s;
      obtained[index] := false;
      firstState, statesNum := first, num + 1;
      assert states[..] == st[index := s] && obtained[..] == ob[index := false];
      assert Valid();
      assert Entries() == View(st[index := s], ob[index := false], first as nat, num as nat + 1);
    }

    /** The newest snapshot and the connection status. */
    method ReadState() returns (state: State, isConnected: bool, count: int)
      requires Valid()
      ensures state == lastState
      ensures isConnected == connected && count == connectedCount
    {
      isConnected := connected;
      count := connectedCount;
      state := GetLastState();
    }

    /** The read loop over a non-empty ring: copies the unread snapshots,
        oldest first, into `buffer` (room for `bufferLen` of them) and marks
        them obtained. */
    method ReadRing(buffer: array<State>, bufferLen: int) returns (n: nat)
      requires Valid() && statesNum > 0
      requires buffer != states
      requires bufferLen <= buffer.Length
      modifies buffer, obtained
      ensures Valid()
      ensures n == Taken(bufferLen, |Unread(old(Entries()))|)
      ensures buffer[..n] == Unread(old(Entries()))[..n]
      ensures buffer[n..] == old(buffer[n..])
      ensures Entries() == MarkRead(old(Entries()), bufferLen)
      ensures Unread(old(Entries())) == buffer[..n] + Unread(Entries())
    {
      n := ReadLoop(states, obtained, firstState, statesNum, buffer, bufferLen);
    }

    /** Copies the unread snapshots, oldest first, into `buffer` (room for
        `bufferLen` of them) and marks them obtained. With an empty ring the
        last snapshot is delivered once more. */
    method ReadStates(buffer: array<State>, bufferLen: int) returns (n: int, isConnected: bool, count: int)
      requires Valid()
      requires buffer != states
      requires bufferLen <= buffer.Length
      requires connected && statesNum == 0 ==> 1 <= buffer.Length
      modifies buffer, obtained
      ensures Valid()
      ensures isConnected == connected && count == connectedCount
      ensures !connected ==> n == 0 && obtained[..] == old(obtained[..]) && buffer[..] == old(buffer[..])
      ensures connected && statesNum == 0 ==>
                n == 1 && buffer[0] == lastState && buffer[1..] == old(buffer[1..]) && obtained[..] == old(obtained[..])
      ensures connected && statesNum > 0 ==>
                && n == Taken(bufferLen, |Unread(old(Entries()))|)
                && buffer[..n] == Unread(old(Entries()))[..n]
                && buffer[n..] == old(buffer[n..])
                && Entries() == MarkRead(old(Entries()), bufferLen)
                && Unread(old(Entries())) == buffer[..n] + Unread(Entries())
    {
      isConnected := connected;
      count := connectedCount;
      n := 0;
      if connected {
        if statesNum == 0 {
          n := 1;
          buffer[0] := lastState;
        } else {
          n := ReadRing(buffer, bufferLen);
        }
      }
    }

    /** Re-appends the newest snapshot when the controller is connected, that
        snapshot is at least 100 ms old and (if the ring holds any) the game
        has already obtained it. Always asks to be polled again in 100 ms. */
    method Poll(now: u64) returns (r: u32)
      requires Valid()
      modifies this`firstState, this`statesNum, this`lastState, states, obtained
      ensures Valid()
      ensures r == 100
      ensures lastState == old(lastState)
      ensures var fires := old(connected) && ElapsedMs(now, old(lastState).time) >= 100
                           && (old(statesNum) == 0 || old(Entries())[old(statesNum) - 1].obtained);
              && (fires ==> Entries() == Push(old(Entries()), old(lastState)))
              && (!fires ==> Entries() == old(Entries()) && firstState == old(firstState) && statesNum == old(statesNum))
    {
      if connected {
        var time := now;
        if statesNum == 0 {
          var diff := ElapsedMs(time, lastState.time);
          if diff >= 100 {
            AddState(GetLastState());
          }
        } else {
          var index := PollSlot(firstState, statesNum);
          PollSlotIsNewest(firstState, statesNum);
          var diff := ElapsedMs(time, states[index].time);
          if obtained[index] && diff >= 100 {
            AddState(GetLastState());
          }
        }
      }
      r := 100;
    }

    /** Presses or releases `button` in a new snapshot taken at `now`. */
    method CheckButton(button: bv32, isPressed: bool, now: u64)
      requires Valid()
      modifies this`firstState, this`statesNum, this`lastState, states, obtained
      ensures Valid()
      ensures lastState == old(lastState).(time := now, buttons := ApplyButton(old(lastState).buttons, button, isPressed))
      ensures Entries() == Push(old(Entries()), lastState)
    {
      var state := GetLastState();
      state := state.(time := now);
      state := state.(buttons := ApplyButton(state.buttons, button, isPressed));
      AddState(state);
    }

    /** Moves `axis` to `value` in a new snapshot taken at `now`. */
    method SetAxisValue(axis: Axis, value: int, now: u64)
      requires Valid()
      modifies this`firstState, this`statesNum, this`lastState, states, obtained
      ensures Valid()
      ensures lastState == WithAxis(old(lastState).(time := now), axis, value)
      ensures Entries() == Push(old(Entries()), lastState)
    {
      var state := GetLastState();
      state := state.(time := now);
      state := WithAxis(state, axis, value);
      AddState(state);
    }

    /** Records a gyroscope reading in a new snapshot taken at `now`. */
    method Gyro(gyro: Vec3, now: u64)
      requires Valid()
      modifies this`firstState, this`statesNum, this`lastState, states, obtained
      ensures Valid()
      ensures lastState == old(lastState).(time := now, angularVelocity := gyro)
      ensures Entries() == Push(old(Entries()), lastState)
    {
      var state := GetLastState();
      state := state.(time := now, angularVelocity := gyro);
      AddState(state);
    }

    /** Records an accelerometer reading in a new snapshot taken at `now`. */
    method Acceleration(acceleration: Vec3, now: u64)
      requires Valid()
      modifies this`firstState, this`statesNum, this`lastState, states, obtained
      ensures Valid()
      ensures lastState == old(lastState).(time := now, acceleration := acceleration)
      ensures Entries() == Push(old(Entries()), lastState)
    {
      var state := GetLastState();
      state := state.(time := now, acceleration := acceleration);
      AddState(state);
    }

    /** Records touchpad contact `touchIndex` in a new snapshot taken at `now`;
        indices from 2 on are ignored. */
    method SetTouchpadState(touchIndex: int, touchDown: bool, x: u16, y: u16, now: u64)
      requires Valid()
      requires 0 <= touchIndex
      modifies this`firstState, this`statesNum, this`lastState, states, obtained
      ensures Valid()
      ensures touchIndex < 2 ==>
                && lastState == WithTouch(old(lastState), touchIndex, Touch(touchDown, x, y)).(time := now)
                && Entries() == Push(old(Entries()), lastState)
      ensures touchIndex >= 2 ==> lastState == old(lastState) && Entries() == old(Entries())
    {
      if touchIndex < 2 {
        var state := GetLastState();
        state := state.(time := now);
        state := WithTouch(state, touchIndex, Touch(touchDown, x, y));
        AddState(state);
      }
    }
  }
}
