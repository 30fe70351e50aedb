/** A bitfield command word: the heartbeat re-asserts it and a command changes
    one bit of it. Each beat and each command holds the word's lock across its
    write, so each is one step. */
module CommandWord {
  import opened Numbers

  /** Position in a 32-bit word. */
  type Bit = bv5

  datatype BitAction = Set | Clear | Pulse

  /** How a command's verb and value are read. */
  function Action(verb: string, value: real): Result<BitAction> {
    if verb in {"enable", "start"} then Ok(Set)
    else if verb in {"disable", "stop"} then Ok(Clear)
    else if verb in {"clear", "reset"} then Ok(Pulse)
    else if verb == "set" then Ok(if value != 0.0 then Set else Clear)
    else Err("verb doesn't drive a bit")
  }

  /** A word, as the bits that are on. */
  type Word = iset<Bit>

  // ----- the machine word

  function Mask(bit: Bit): bv32 { (1 as bv32) << (bit as bv32) }

  predicate IsSet(w: bv32, bit: Bit) { w & Mask(bit) != 0 }

  /** The bits on in a machine word. */
  ghost function Bits(w: bv32): Word { iset c: Bit | IsSet(w, c) }

  lemma OneBit(bit: Bit, c: Bit)
    ensures Mask(bit) & Mask(c) == if bit == c then Mask(c) else 0
    ensures Mask(c) != 0
  {
  }

  lemma OneBitOrNone(w: bv32, c: Bit)
    ensures w & Mask(c) == 0 || w & Mask(c) == Mask(c)
  {
  }

  lemma Distribute(w: bv32, v: bv32, m: bv32)
    ensures (w | v) & m == (w & m) | (v & m)
    ensures (w & !v) & m == (w & m) & !(v & m)
  {
  }

  lemma NonZero(x: bv32, y: bv32)
    ensures x | y != 0 <==> x != 0 || y != 0
  {
  }

  lemma OrBit(w: bv32, v: bv32, c: Bit)
    ensures IsSet(w | v, c) <==> IsSet(w, c) || IsSet(v, c)
  {
    Distribute(w, v, Mask(c));
    NonZero(w & Mask(c), v & Mask(c));
  }

  lemma AndNotBit(w: bv32, v: bv32, c: Bit)
    ensures IsSet(w & !v, c) <==> IsSet(w, c) && !IsSet(v, c)
  {
    Distribute(w, v, Mask(c));
    OneBitOrNone(w, c);
    OneBitOrNone(v, c);
  }

  /** The machine operations, on the bits that are on. */
  lemma MachineBits(w: bv32, v: bv32, bit: Bit)
    ensures Bits(w | v) == Bits(w) + Bits(v)
    ensures Bits(w & !v) == Bits(w) - Bits(v)
    ensures Bits(Mask(bit)) == iset{bit}
    ensures Bits(0) == iset{}
  {
    OrBits(w, v);
    AndNotBits(w, v);
    forall c: Bit ensures c in Bits(Mask(bit)) <==> c == bit { OneBit(bit, c); }
  }

  lemma OrBits(w: bv32, v: bv32)
    ensures Bits(w | v) == Bits(w) + Bits(v)
  {
    forall c: Bit ensures c in Bits(w | v) <==> c in Bits(w) + Bits(v) { OrBit(w, v, c); }
  }

  lemma AndNotBits(w: bv32, v: bv32)
    ensures Bits(w & !v) == Bits(w) - Bits(v)
  {
    forall c: Bit ensures c in Bits(w & !v) <==> c in Bits(w) - Bits(v) { AndNotBit(w, v, c); }
  }

  // ----- commands

  /** The word a command writes. */
  ghost function Written(word: Word, bit: Bit, action: BitAction): Word {
    if action == Clear then word - iset{bit} else word + iset{bit}
  }

  /** The word kept after a command's write lands. */
  ghost function Kept(word: Word, bit: Bit, action: BitAction): Word {
    if action == Set then word + iset{bit} else word - iset{bit}
  }

  /** A command on a machine word: what goes out once, and what stays. */
  method Apply(word: bv32, bit: Bit, action: BitAction) returns (now: bv32, keep: bv32)
    ensures Bits(now) == Written(Bits(word), bit, action)
    ensures Bits(keep) == Kept(Bits(word), bit, action)
  {
    MachineBits(word, Mask(bit), bit);
    match action
    case Set => now, keep := word | Mask(bit), word | Mask(bit);
    case Clear => now, keep := word & !Mask(bit), word & !Mask(bit);
    case Pulse => now, keep := word | Mask(bit), word & !Mask(bit);
  }

  /** What a verb does to its bit: written on by everything but a stop, and kept
      on only by a start, or by a `set` to anything but zero. */
  lemma VerbLeavesBit(verb: string, value: real, word: Word, bit: Bit)
    requires Action(verb, value).Ok?
    ensures var action := Action(verb, value).value;
            var starts := verb in {"enable", "start"} || (verb == "set" && value != 0.0);
            && (bit in Kept(word, bit, action) <==> starts)
            && (bit in Written(word, bit, action) <==> starts || verb in {"clear", "reset"})
  {
  }

  /** A command's binding to a point, and to one of its bits if it names one. */
  datatype Binding = Binding(point: string, bit: Option<Bit>)

  ghost predicate Bound(bindings: seq<Binding>, point: string, c: Bit) {
    Binding(point, Some(c)) in bindings
  }

  ghost predicate Named(bindings: seq<Binding>, point: string) {
    exists c :: Bound(bindings, point, c)
  }

  lemma BoundStep(bindings: seq<Binding>, b: Binding, point: string)
    ensures forall c :: Bound(bindings + [b], point, c) <==> Bound(bindings, point, c) || b == Binding(point, Some(c))
    ensures Named(bindings + [b], point) <==> Named(bindings, point) || (b.point == point && b.bit.Some?)
  {
    if b.point == point && b.bit.Some? { assert Bound(bindings + [b], point, b.bit.value); }
    if c :| Bound(bindings, point, c) { assert Bound(bindings + [b], point, c); }
  }

  /** One entry per point some binding names a bit of: exactly the bits so named. */
  ghost predicate Gathers(bindings: seq<Binding>, owned: map<string, bv32>) {
    && (forall w :: w in owned <==> Named(bindings, w))
    && forall w, c :: w in owned ==> (c in Bits(owned[w]) <==> Bound(bindings, w, c))
  }

  function MaskAt(owned: map<string, bv32>, point: string): bv32 {
    if point in owned then owned[point] else 0
  }

  lemma GathersStep(bindings: seq<Binding>, b: Binding, owned: map<string, bv32>, mask: bv32)
    requires Gathers(bindings, owned) && b.bit.Some?
    requires Bits(mask) == Bits(MaskAt(owned, b.point)) + iset{b.bit.value} && Bits(0) == iset{}
    ensures Gathers(bindings + [b], owned[b.point := mask])
  {
    var after := owned[b.point := mask];
    forall w ensures w in after <==> Named(bindings + [b], w) { BoundStep(bindings, b, w); }
    forall w, c | w in after ensures c in Bits(after[w]) <==> Bound(bindings + [b], w, c) {
      BoundStep(bindings, b, w);
      if w == b.point && w !in owned { assert !Bound(bindings, w, c); }
    }
  }

  lemma GathersSkip(bindings: seq<Binding>, b: Binding, owned: map<string, bv32>)
    requires Gathers(bindings, owned) && b.bit.None?
    ensures Gathers(bindings + [b], owned)
  {
    forall w ensures w in owned <==> Named(bindings + [b], w) { BoundStep(bindings, b, w); }
    forall w, c | w in owned ensures c in Bits(owned[w]) <==> Bound(bindings + [b], w, c) { BoundStep(bindings, b, w); }
  }

  method Own(mask: bv32, bit: Bit) returns (r: bv32)
    ensures Bits(r) == Bits(mask) + iset{bit} && Bits(0) == iset{}
  {
    MachineBits(mask, Mask(bit), bit);
    r := mask | Mask(bit);
  }

  method Beats(bindings: seq<Binding>) returns (owned: map<string, bv32>)
    ensures Gathers(bindings, owned)
  {
    owned := map[];
    for k := 0 to |bindings|
      invariant Gathers(bindings[..k], owned)
    {
      var b := bindings[k];
      assert bindings[..k + 1] == bindings[..k] + [b];
      if b.bit.Some? {
        var mask := Own(MaskAt(owned, b.point), b.bit.value);
        GathersStep(bindings[..k], b, owned, mask);
        owned := owned[b.point := mask];
      } else {
        GathersSkip(bindings[..k], b, owned);
      }
    }
    assert bindings[..|bindings|] == bindings;
  }

  // ----- steps

  /** A beat carries whether the EMS can still steer, what the device would read
      (none: the read fails) and whether the write lands. */
  datatype Event =
    | Beat(steerable: bool, read: Option<Word>, lands: bool)
    | Command(bit: Bit, action: BitAction, lands: bool)

  /** The asserted word after an event; `None` until seeded, or once forgotten. */
  ghost function After(owned: Word, word: Option<Word>, e: Event): Option<Word> {
    match e
    case Beat(steerable, read, _) =>
      if !steerable then None
      else if word.Some? then word
      else if read.Some? then Some(read.value - owned)
      else None
    case Command(bit, action, lands) =>
      if word.Some? && lands then Some(Kept(word.value, bit, action)) else word
  }

  /** The word an event writes, whether or not the write lands. */
  ghost function Sent(owned: Word, word: Option<Word>, e: Event): Option<Word> {
    match e
    case Beat(_, _, _) => After(owned, word, e)
    case Command(bit, action, _) => if word.Some? then Some(Written(word.value, bit, action)) else None
  }

  ghost function BitsOf(w: Option<bv32>): Option<Word> {
    if w.None? then None else Some(Bits(w.value))
  }

  class WordSlot {
    var word: Option<bv32>

    constructor ()
      ensures word == None
    {
      word := None;
    }

    method Feed(owned: bv32, steerable: bool, read: Option<bv32>, lands: bool) returns (sent: Option<bv32>)
      modifies this
      ensures BitsOf(word) == After(Bits(owned), BitsOf(old(word)), Beat(steerable, BitsOf(read), lands))
      ensures BitsOf(sent) == Sent(Bits(owned), BitsOf(old(word)), Beat(steerable, BitsOf(read), lands))
    {
      if !steerable {
        word := None;
        return None;
      }
      if word.None? {
        if read.None? { return None; }
        MachineBits(read.value, owned, 0);
        word := Some(read.value & !owned);
      }
      sent := word;
    }

    /** A command with no heartbeat to keep its word alive is refused. */
    method WriteBit(ghost owned: Word, bit: Bit, action: BitAction, lands: bool) returns (sent: Option<bv32>, ok: bool)
      modifies this
      ensures BitsOf(word) == After(owned, BitsOf(old(word)), Command(bit, action, lands))
      ensures BitsOf(sent) == Sent(owned, BitsOf(old(word)), Command(bit, action, lands))
      ensures ok <==> old(word).Some? && lands
    {
      if word.None? { return None, false; }
      var now, keep := Apply(word.value, bit, action);
      if !lands { return Some(now), false; }
      word := Some(keep);
      return Some(now), true;
    }
  }

  // ----- what a word says about the run that led to it

  ghost function Run(owned: Word, events: seq<Event>): Option<Word> {
    if events == [] then None
    else After(owned, Run(owned, events[..|events| - 1]), events[|events| - 1])
  }

  /** What the device read when the word was last seeded, if it still stands. */
  ghost function Seed(events: seq<Event>): Option<Word> {
    if events == [] then None
    else
      var front, last := Seed(events[..|events| - 1]), events[|events| - 1];
      if last.Command? then front
      else if !last.steerable then None
      else if front.Some? then front
      else last.read
  }

  ghost predicate Lands(e: Event, c: Bit) {
    e.Command? && e.bit == c && e.lands
  }

  /** Event `k` set bit `c`: it landed on a seeded word, which was not forgotten
      since, and no later Clear or Pulse of the bit landed. */
  ghost predicate SetAt(events: seq<Event>, c: Bit, k: nat)
    requires k < |events|
  {
    && Lands(events[k], c) && events[k].action == Set && Seed(events[..k]).Some?
    && forall j :: k < j < |events| ==> Stands(events, c, j)
  }

  ghost predicate Stands(events: seq<Event>, c: Bit, j: nat)
    requires j < |events|
  {
    Seed(events[..j + 1]).Some? && (Lands(events[j], c) ==> events[j].action == Set)
  }

  /** Bit `c` was set since the last seeding, and not undone. */
  ghost predicate Latched(events: seq<Event>, c: Bit) {
    exists k :: 0 <= k < |events| && SetAt(events, c, k)
  }

  /** One more event: a landed Set latches a seeded word's bit, and everything
      but forgetting and a landed Clear or Pulse keeps it. */
  lemma LatchedStep(events: seq<Event>, e: Event, c: Bit)
    ensures Latched(events + [e], c) <==>
            if Lands(e, c) then e.action == Set && Seed(events).Some?
            else Latched(events, c) && Seed(events + [e]).Some?
  {
    var all, n := events + [e], |events|;
    assert all[..n] == events && all[..n + 1] == all;
    if Lands(e, c) && e.action == Set && Seed(events).Some? { assert SetAt(all, c, n); }
    if k :| 0 <= k < n && SetAt(events, c, k) {
      PrefixSame(events, e, k);
      if Stands(all, c, n) {
        forall j | k < j < n ensures Stands(all, c, j) { assert Stands(events, c, j); PrefixSame(events, e, j + 1); }
        assert SetAt(all, c, k);
      }
    }
    if k :| 0 <= k < n + 1 && SetAt(all, c, k) {
      if k < n {
        assert Stands(all, c, n);
        PrefixSame(events, e, k);
        forall j | k < j < n ensures Stands(events, c, j) { assert Stands(all, c, j); PrefixSame(events, e, j + 1); }
        assert SetAt(events, c, k);
      }
    }
  }

  lemma PrefixSame(events: seq<Event>, e: Event, k: nat)
    requires k <= |events|
    ensures (events + [e])[..k] == events[..k]
  {
  }

  lemma {:induction false} LatchedIsSeeded(events: seq<Event>, c: Bit)
    requires Latched(events, c)
    ensures Seed(events).Some?
  {
    var n := |events| - 1;
    var k :| 0 <= k < |events| && SetAt(events, c, k);
    assert events[..n + 1] == events;
    if k < n { assert Stands(events, c, n); }
  }

  /** Bit by bit, what a word means: an unowned bit is as the device read at the
      last seeding; an owned one is on exactly if it was set since. */
  ghost predicate Means(owned: Word, word: Word, events: seq<Event>, c: Bit) {
    && Seed(events).Some?
    && (c in word <==> if c in owned then Latched(events, c) else c in Seed(events).value)
  }

  ghost predicate OnlyOwned(owned: Word, events: seq<Event>) {
    forall e :: e in events && e.Command? ==> e.bit in owned
  }

  lemma {:induction false} WordMeans(owned: Word, events: seq<Event>, c: Bit)
    requires OnlyOwned(owned, events)
    ensures Run(owned, events).Some? <==> Seed(events).Some?
    ensures Run(owned, events).Some? ==> Means(owned, Run(owned, events).value, events, c)
  {
    if events == [] { return; }
    var front, e := events[..|events| - 1], events[|events| - 1];
    assert front + [e] == events;
    WordMeans(owned, front, c);
    LatchedStep(front, e, c);
    var before := Run(owned, front);
    match e
    case Beat(steerable, read, _) =>
      if before.None? && read.Some? {
        if Latched(front, c) { LatchedIsSeeded(front, c); }
      }
    case Command(bit, action, _) =>
  }

  /** Every word ever written, whether or not the write lands: unowned bits are
      as last seeded, and an owned bit is on exactly if this write is a command
      that turns it on, or it was set since the last seeding and not undone. */
  lemma SentMeans(owned: Word, events: seq<Event>, e: Event, c: Bit)
    requires OnlyOwned(owned, events + [e])
    requires Sent(owned, Run(owned, events), e).Some?
    ensures var word := Sent(owned, Run(owned, events), e).value;
            && Seed(events + [e]).Some?
            && (c !in owned ==> (c in word <==> c in Seed(events + [e]).value))
            && (c in owned ==>
                  (c in word <==> if e.Command? && e.bit == c then e.action != Clear else Latched(events, c)))
  {
    assert OnlyOwned(owned, events) by { assert forall x :: x in events ==> x in events + [e]; }
    assert (events + [e])[..|events|] == events && e in events + [e];
    WordMeans(owned, events, c);
    match e
    case Beat(_, _, _) =>
      WordMeans(owned, events + [e], c);
      LatchedStep(events, e, c);
    case Command(bit, _, _) =>
  }

  /** No later event asks for bit `c`. */
  ghost predicate NotAsked(events: seq<Event>, c: Bit) {
    forall e :: e in events ==> !(e.Command? && e.bit == c && e.action != Clear)
  }

  lemma {:induction false} StaysOff(events: seq<Event>, more: seq<Event>, c: Bit)
    requires !Latched(events, c) && NotAsked(more, c)
    ensures !Latched(events + more, c)
  {
    if more == [] {
      assert events + more == events;
    } else {
      var front, last := more[..|more| - 1], more[|more| - 1];
      StaysOff(events, front, c);
      LatchedStep(events + front, last, c);
      assert events + front + [last] == events + more;
    }
  }

  /** An owned bit that is not latched is in no word written before it is asked for. */
  lemma OffUntilAsked(owned: Word, events: seq<Event>, more: seq<Event>, e: Event, c: Bit)
    requires OnlyOwned(owned, events + more + [e]) && c in owned
    requires !Latched(events, c) && NotAsked(more + [e], c)
    ensures Sent(owned, Run(owned, events + more), e).Some? ==> c !in Sent(owned, Run(owned, events + more), e).value
  {
    assert NotAsked(more, c) by { assert forall x :: x in more ==> x in more + [e]; }
    assert e in more + [e];
    StaysOff(events, more, c);
    if Sent(owned, Run(owned, events + more), e).Some? { SentMeans(owned, events + more, e, c); }
  }

  /** A pulse that lands is in exactly one write: its own has the bit, and no
      later one does before the bit is asked for again. */
  lemma PulseIsOneWrite(owned: Word, events: seq<Event>, more: seq<Event>, e: Event, c: Bit)
    requires OnlyOwned(owned, events + [Command(c, Pulse, true)] + more + [e]) && c in owned
    requires Run(owned, events).Some? && NotAsked(more + [e], c)
    ensures c in Sent(owned, Run(owned, events), Command(c, Pulse, true)).value
    ensures var pulsed := events + [Command(c, Pulse, true)];
            Sent(owned, Run(owned, pulsed + more), e).Some? ==> c !in Sent(owned, Run(owned, pulsed + more), e).value
  {
    LatchedStep(events, Command(c, Pulse, true), c);
    OffUntilAsked(owned, events + [Command(c, Pulse, true)], more, e, c);
  }

  /** A unit that tripped never resumes by itself: once steering is lost no word
      is written until a beat seeds it afresh, and from then on every owned bit
      is off until it is asked for again. */
  lemma NeverResumesItself(owned: Word, events: seq<Event>, lost: Event, more: seq<Event>, e: Event, c: Bit)
    requires lost.Beat? && !lost.steerable && c in owned
    requires OnlyOwned(owned, events + [lost] + more + [e]) && NotAsked(more + [e], c)
    ensures var off := events + [lost];
            && Run(owned, off).None?
            && (Sent(owned, Run(owned, off), e).Some? ==> e.Beat? && e.steerable)
            && (Sent(owned, Run(owned, off + more), e).Some? ==> c !in Sent(owned, Run(owned, off + more), e).value)
  {
    assert (events + [lost])[..|events|] == events;
    LatchedStep(events, lost, c);
    OffUntilAsked(owned, events + [lost], more, e, c);
  }

  /** A command whose write fails changes nothing the beat asserts. In
      particular a unit whose stop fails is told to run again on the next beat. */
  lemma FailedStopIsUndone(owned: Word, events: seq<Event>, c: Bit, read: Option<Word>, lands: bool)
    requires OnlyOwned(owned, events) && c in owned && Latched(events, c)
    ensures var stopped := events + [Command(c, Clear, false)];
            && Run(owned, stopped) == Run(owned, events)
            && Sent(owned, Run(owned, stopped), Beat(true, read, lands)).Some?
            && c in Sent(owned, Run(owned, stopped), Beat(true, read, lands)).value
  {
    assert (events + [Command(c, Clear, false)])[..|events|] == events;
    LatchedIsSeeded(events, c);
    WordMeans(owned, events, c);
  }
}
