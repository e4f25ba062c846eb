/** The pending round: lines not yet sent to the kitchen, merged by product, options, note and guest. */
module Cart {
  import opened LineKey

  type Id = nat

  const MAX_LINE_QUANTITY := 99

  datatype Chosen = Chosen(id: string, delta: int)

  datatype Line = Line(clientId: nat, product: Id, price: int, quantity: int, modifiers: seq<Chosen>, note: string,
                       seat: int, key: string)

  function Ids(modifiers: seq<Chosen>): (ids: seq<string>)
    ensures |ids| == |modifiers| && forall i :: 0 <= i < |ids| ==> ids[i] == modifiers[i].id
  {
    seq(|modifiers|, i requires 0 <= i < |modifiers| => modifiers[i].id)
  }

  function OptionsHash(modifiers: seq<Chosen>, note: string): string {
    Key(Ids(modifiers), note)
  }

  function Capped(n: int): int {
    if n < MAX_LINE_QUANTITY then n else MAX_LINE_QUANTITY
  }

  predicate SameSlot(l: Line, product: Id, key: string, seat: int) {
    l.product == product && l.key == key && l.seat == seat
  }

  // ---------------------------------------------------------------- finding lines

  /** The first line of a slot other than line `skip`, or the length when there is none. */
  function FindSlot(lines: seq<Line>, product: Id, key: string, seat: int, skip: nat): (k: nat)
    ensures k <= |lines|
    ensures k < |lines| ==> SameSlot(lines[k], product, key, seat) && k != skip
    ensures forall i :: 0 <= i < k && i != skip ==> !SameSlot(lines[i], product, key, seat)
  {
    SlotFrom(lines, product, key, seat, skip, 0)
  }

  function SlotFrom(lines: seq<Line>, product: Id, key: string, seat: int, skip: nat, from: nat): (k: nat)
    requires from <= |lines|
    ensures from <= k <= |lines|
    ensures k < |lines| ==> SameSlot(lines[k], product, key, seat) && k != skip
    ensures forall i :: from <= i < k && i != skip ==> !SameSlot(lines[i], product, key, seat)
    decreases |lines| - from
  {
    if from == |lines| || (SameSlot(lines[from], product, key, seat) && from != skip) then from
    else SlotFrom(lines, product, key, seat, skip, from + 1)
  }

  function FindLine(lines: seq<Line>, clientId: nat): (k: nat)
    ensures k <= |lines| && (k < |lines| ==> lines[k].clientId == clientId)
    ensures forall i :: 0 <= i < k ==> lines[i].clientId != clientId
  {
    if lines == [] || lines[0].clientId == clientId then 0 else FindLine(lines[1..], clientId) + 1
  }

  // ---------------------------------------------------------------- the operations

  datatype State = State(lines: seq<Line>, lineSeq: nat)

  datatype Step =
    | Add(product: Id, price: int, modifiers: seq<Chosen>, note: string, quantity: int, seat: int)
    | ChangeQuantity(clientId: nat, delta: int)
    | Remove(clientId: nat)
    | EditNote(clientId: nat, note: string)

  function AddLine(s: State, product: Id, price: int, modifiers: seq<Chosen>, note: string, quantity: int,
                   seat: int): State {
    var key := OptionsHash(modifiers, Trim(note));
    var k := FindSlot(s.lines, product, key, seat, |s.lines|);
    if k < |s.lines| then s.(lines := s.lines[k := s.lines[k].(quantity := Capped(s.lines[k].quantity + quantity))])
    else State(s.lines + [Line(s.lineSeq + 1, product, price, Capped(quantity), modifiers, Trim(note), seat, key)],
               s.lineSeq + 1)
  }

  /** Every line with the id changes; ids are unique, so at most one does. */
  function ChangeIn(lines: seq<Line>, clientId: nat, delta: int): (r: seq<Line>)
    ensures |r| == |lines|
    ensures forall i :: 0 <= i < |lines| ==>
      r[i] == (if lines[i].clientId != clientId then lines[i]
               else lines[i].(quantity := Stepped(lines[i].quantity, delta)))
  {
    seq(|lines|, i requires 0 <= i < |lines| =>
      if lines[i].clientId == clientId then lines[i].(quantity := Stepped(lines[i].quantity, delta)) else lines[i])
  }

  function Stepped(quantity: int, delta: int): int {
    Capped(if quantity + delta > 1 then quantity + delta else 1)
  }

  function RemoveFrom(lines: seq<Line>, clientId: nat): seq<Line> {
    if lines == [] then []
    else if lines[|lines| - 1].clientId == clientId then RemoveFrom(lines[..|lines| - 1], clientId)
    else RemoveFrom(lines[..|lines| - 1], clientId) + [lines[|lines| - 1]]
  }

  /** The line an edit would merge into, or the length when the edit stays in place. */
  function TwinOf(lines: seq<Line>, clientId: nat, note: string): (k: nat)
    ensures k <= |lines|
  {
    var t := FindLine(lines, clientId);
    if t == |lines| || Trim(note) == lines[t].note then |lines|
    else FindSlot(lines, lines[t].product, OptionsHash(lines[t].modifiers, Trim(note)), lines[t].seat, t)
  }

  function Merged(lines: seq<Line>, t: nat, k: nat): seq<Line>
    requires t < |lines| && k < |lines|
  {
    var merged := lines[k := lines[k].(quantity := Capped(lines[k].quantity + lines[t].quantity))];
    merged[..t] + merged[t + 1..]
  }

  function Renamed(l: Line, note: string): Line {
    l.(note := Trim(note), key := OptionsHash(l.modifiers, Trim(note)))
  }

  function EditIn(lines: seq<Line>, clientId: nat, note: string): seq<Line> {
    var t, k := FindLine(lines, clientId), TwinOf(lines, clientId, note);
    if t == |lines| || Trim(note) == lines[t].note then lines
    else if k < |lines| then Merged(lines, t, k)
    else lines[t := Renamed(lines[t], note)]
  }

  function Do(s: State, step: Step): State {
    match step
    case Add(product, price, modifiers, note, quantity, seat) =>
      AddLine(s, product, price, modifiers, note, quantity, seat)
    case ChangeQuantity(clientId, delta) => s.(lines := ChangeIn(s.lines, clientId, delta))
    case Remove(clientId) => s.(lines := RemoveFrom(s.lines, clientId))
    case EditNote(clientId, note) => s.(lines := EditIn(s.lines, clientId, note))
  }

  /** Pickers add at least one unit, with catalog ids. */
  ghost predicate Enabled(step: Step) {
    step.Add? ==> step.quantity >= 1 && Clean(Ids(step.modifiers))
  }

  ghost predicate IsRun(states: seq<State>, steps: seq<Step>) {
    && |states| == |steps| + 1 && states[0] == State([], 0)
    && forall i :: 0 <= i < |steps| ==> Enabled(steps[i]) && states[i + 1] == Do(states[i], steps[i])
  }

  // ---------------------------------------------------------------- what every run keeps

  ghost predicate GoodLine(l: Line) {
    && 1 <= l.quantity <= MAX_LINE_QUANTITY
    && l.note == Trim(l.note) && l.key == OptionsHash(l.modifiers, l.note) && Clean(Ids(l.modifiers))
  }

  /** Well-formed lines, each told apart from the others by slot and by id. */
  ghost predicate Kept(lines: seq<Line>, lineSeq: nat) {
    && (forall i :: 0 <= i < |lines| ==> GoodLine(lines[i]) && lines[i].clientId <= lineSeq)
    && (forall i, j :: 0 <= i < j < |lines| ==> Apart(lines[i], lines[j]))
  }

  ghost predicate KeptState(s: State) {
    Kept(s.lines, s.lineSeq)
  }

  predicate Apart(a: Line, b: Line) {
    a.clientId != b.clientId && !SameSlot(a, b.product, b.key, b.seat)
  }

  lemma AddKeeps(s: State, product: Id, price: int, modifiers: seq<Chosen>, note: string, quantity: int, seat: int)
    requires Kept(s.lines, s.lineSeq) && quantity >= 1 && Clean(Ids(modifiers))
    ensures var t := AddLine(s, product, price, modifiers, note, quantity, seat); Kept(t.lines, t.lineSeq)
  {
    TrimTwice(note);
  }

  lemma ChangeKeeps(lines: seq<Line>, lineSeq: nat, clientId: nat, delta: int)
    requires Kept(lines, lineSeq)
    ensures Kept(ChangeIn(lines, clientId, delta), lineSeq)
  {
    var r := ChangeIn(lines, clientId, delta);
    forall i, j | 0 <= i < j < |r| ensures Apart(r[i], r[j]) {
      assert Apart(lines[i], lines[j]);
    }
  }

  lemma {:induction false} RemoveLeavesOthers(lines: seq<Line>, clientId: nat)
    ensures forall l :: l in RemoveFrom(lines, clientId) <==> l in lines && l.clientId != clientId
  {
    if lines != [] {
      var n := |lines| - 1;
      RemoveLeavesOthers(lines[..n], clientId);
      assert lines == lines[..n] + [lines[n]];
    }
  }

  lemma KeptMore(lines: seq<Line>, lineSeq: nat, l: Line)
    requires Kept(lines, lineSeq) && GoodLine(l) && l.clientId <= lineSeq && forall x :: x in lines ==> Apart(x, l)
    ensures Kept(lines + [l], lineSeq)
  {
    hide GoodLine;
  }

  lemma {:induction false} RemoveKeeps(lines: seq<Line>, lineSeq: nat, clientId: nat)
    requires Kept(lines, lineSeq)
    ensures Kept(RemoveFrom(lines, clientId), lineSeq)
  {
    hide GoodLine;
    if lines != [] {
      var n := |lines| - 1;
      RemoveKeeps(lines[..n], lineSeq, clientId);
      RemoveLeavesOthers(lines[..n], clientId);
      if lines[n].clientId != clientId {
        KeptMore(RemoveFrom(lines[..n], clientId), lineSeq, lines[n]);
      }
    }
  }

  lemma DropKeeps(lines: seq<Line>, lineSeq: nat, t: nat)
    requires Kept(lines, lineSeq) && t < |lines|
    ensures Kept(lines[..t] + lines[t + 1..], lineSeq)
  {
    var r := lines[..t] + lines[t + 1..];
    forall i | 0 <= i < |r| ensures r[i] == lines[if i < t then i else i + 1] {
    }
    forall i, j | 0 <= i < j < |r| ensures Apart(r[i], r[j]) {
      assert Apart(lines[if i < t then i else i + 1], lines[if j < t then j else j + 1]);
    }
  }

  lemma QuantityKeeps(lines: seq<Line>, lineSeq: nat, k: nat, quantity: int)
    requires Kept(lines, lineSeq) && k < |lines| && 1 <= quantity <= MAX_LINE_QUANTITY
    ensures Kept(lines[k := lines[k].(quantity := quantity)], lineSeq)
  {
    var r := lines[k := lines[k].(quantity := quantity)];
    assert GoodLine(r[k]);
    hide GoodLine;
    forall i, j | 0 <= i < j < |r| ensures Apart(r[i], r[j]) {
      assert Apart(lines[i], lines[j]);
    }
  }

  lemma MergeKeeps(lines: seq<Line>, lineSeq: nat, t: nat, k: nat)
    requires Kept(lines, lineSeq) && t < |lines| && k < |lines|
    ensures Kept(Merged(lines, t, k), lineSeq)
  {
    var quantity := Capped(lines[k].quantity + lines[t].quantity);
    assert GoodLine(lines[t]) && GoodLine(lines[k]);
    hide Kept;
    QuantityKeeps(lines, lineSeq, k, quantity);
    DropKeeps(lines[k := lines[k].(quantity := quantity)], lineSeq, t);
  }

  lemma RenameKeeps(lines: seq<Line>, lineSeq: nat, t: nat, l: Line)
    requires Kept(lines, lineSeq) && t < |lines| && GoodLine(l)
    requires l.clientId == lines[t].clientId
    requires forall i :: 0 <= i < |lines| && i != t ==> !SameSlot(lines[i], l.product, l.key, l.seat)
    ensures Kept(lines[t := l], lineSeq)
  {
    var r := lines[t := l];
    forall i, j | 0 <= i < j < |r| ensures Apart(r[i], r[j]) {
      assert Apart(lines[i], lines[j]);
    }
  }

  lemma RenamedIsGood(l: Line, note: string)
    requires GoodLine(l)
    ensures GoodLine(Renamed(l, note))
  {
    TrimTwice(note);
  }

  lemma EditKeeps(lines: seq<Line>, lineSeq: nat, clientId: nat, note: string)
    requires Kept(lines, lineSeq)
    ensures Kept(EditIn(lines, clientId, note), lineSeq)
  {
    var t, k := FindLine(lines, clientId), TwinOf(lines, clientId, note);
    if t < |lines| && Trim(note) != lines[t].note {
      if k < |lines| {
        MergeKeeps(lines, lineSeq, t, k);
      } else {
        RenamedIsGood(lines[t], note);
        RenameKeeps(lines, lineSeq, t, Renamed(lines[t], note));
      }
    }
  }

  lemma StepKeeps(s: State, step: Step)
    requires KeptState(s) && Enabled(step)
    ensures KeptState(Do(s, step))
  {
    match step
    case Add(product, price, modifiers, note, quantity, seat) =>
      AddKeeps(s, product, price, modifiers, note, quantity, seat);
    case ChangeQuantity(clientId, delta) => ChangeKeeps(s.lines, s.lineSeq, clientId, delta);
    case Remove(clientId) => RemoveKeeps(s.lines, s.lineSeq, clientId);
    case EditNote(clientId, note) => EditKeeps(s.lines, s.lineSeq, clientId, note);
  }

  lemma RunStep(states: seq<State>, steps: seq<Step>, i: nat)
    requires IsRun(states, steps) && i < |steps|
    ensures Enabled(steps[i]) && states[i + 1] == Do(states[i], steps[i])
  {
  }

  lemma {:induction false} KeptAt(states: seq<State>, steps: seq<Step>, i: nat, s: State)
    requires IsRun(states, steps) && i < |states| && states[i] == s
    ensures KeptState(s)
  {
    hide GoodLine;
    hide Do;
    if i > 0 {
      KeptAt(states, steps, i - 1, states[i - 1]);
      RunStep(states, steps, i - 1);
      StepKeeps(states[i - 1], steps[i - 1]);
    }
  }

  /**
   * In every run of cart operations each quantity is between 1 and 99, and no two lines are for the same
   * product, guest, options (in any tap order) and note.
   */
  lemma RunKeepsLinesApart(states: seq<State>, steps: seq<Step>, i: nat, a: nat, b: nat)
    requires IsRun(states, steps) && i < |states| && a <= b < |states[i].lines|
    ensures 1 <= states[i].lines[a].quantity <= MAX_LINE_QUANTITY
    ensures var (x, y) := (states[i].lines[a], states[i].lines[b]);
      a < b ==>
        !(x.product == y.product && x.seat == y.seat && multiset(Ids(x.modifiers)) == multiset(Ids(y.modifiers))
          && x.note == y.note)
  {
    var (x, y) := (states[i].lines[a], states[i].lines[b]);
    KeptAt(states, steps, i, states[i]);
    if a < b {
      assert Apart(x, y);
      KeyIdentifies(Ids(x.modifiers), x.note, Ids(y.modifiers), y.note);
    }
  }

  // ---------------------------------------------------------------- the round as a map

  /** What tells lines apart: product, options in any order, note, guest. */
  datatype Slot = Slot(product: Id, options: multiset<string>, note: string, seat: int)

  function SlotOf(l: Line): Slot {
    Slot(l.product, multiset(Ids(l.modifiers)), l.note, l.seat)
  }

  function In(l: Line, slot: Slot): int {
    if SlotOf(l) == slot then l.quantity else 0
  }

  /** The units of a slot in the round. */
  function UnitsOf(lines: seq<Line>, slot: Slot): int {
    if lines == [] then 0 else UnitsOf(lines[..|lines| - 1], slot) + In(lines[|lines| - 1], slot)
  }

  lemma {:induction false} UnitsOfUpdate(lines: seq<Line>, k: nat, l: Line, slot: Slot)
    requires k < |lines|
    ensures UnitsOf(lines[k := l], slot) == UnitsOf(lines, slot) - In(lines[k], slot) + In(l, slot)
  {
    hide In;
    var n := |lines| - 1;
    if k < n {
      UnitsOfUpdate(lines[..n], k, l, slot);
      assert lines[k := l][..n] == lines[..n][k := l];
    } else {
      assert lines[k := l][..n] == lines[..n];
    }
  }

  lemma {:induction false} UnitsOfBoth(a: seq<Line>, b: seq<Line>, slot: Slot)
    ensures UnitsOf(a + b, slot) == UnitsOf(a, slot) + UnitsOf(b, slot)
  {
    hide In;
    if b == [] {
      assert a + b == a;
    } else {
      var n := |b| - 1;
      UnitsOfBoth(a, b[..n], slot);
      assert (a + b)[..|a| + n] == a + b[..n];
    }
  }

  lemma UnitsOfDrop(lines: seq<Line>, t: nat, slot: Slot)
    requires t < |lines|
    ensures UnitsOf(lines[..t] + lines[t + 1..], slot) == UnitsOf(lines, slot) - In(lines[t], slot)
  {
    hide In;
    var (a, b, c) := (lines[..t], [lines[t]], lines[t + 1..]);
    assert lines == a + b + c;
    UnitsOfBoth(a + b, c, slot);
    UnitsOfBoth(a, b, slot);
    UnitsOfBoth(a, c, slot);
    assert b[..0] == [];
  }

  lemma {:induction false} UnitsOfNone(lines: seq<Line>, slot: Slot)
    requires forall i :: 0 <= i < |lines| ==> SlotOf(lines[i]) != slot
    ensures UnitsOf(lines, slot) == 0
  {
    hide SlotOf;
    if lines != [] {
      UnitsOfNone(lines[..|lines| - 1], slot);
    }
  }

  /** Lines that are apart are in different slots. */
  lemma SlotsDiffer(lines: seq<Line>, lineSeq: nat, i: nat, j: nat)
    requires Kept(lines, lineSeq) && i < |lines| && j < |lines| && i != j
    ensures SlotOf(lines[i]) != SlotOf(lines[j])
  {
    var (x, y) := (lines[i], lines[j]);
    assert if i < j then Apart(x, y) else Apart(y, x);
    KeyIdentifies(Ids(x.modifiers), x.note, Ids(y.modifiers), y.note);
  }

  /** The units of a line's slot are the line's. */
  lemma UnitsOfLine(lines: seq<Line>, lineSeq: nat, k: nat)
    requires Kept(lines, lineSeq) && k < |lines|
    ensures UnitsOf(lines, SlotOf(lines[k])) == lines[k].quantity
  {
    var slot, rest := SlotOf(lines[k]), lines[..k] + lines[k + 1..];
    hide Kept;
    hide UnitsOf;
    hide SlotOf;
    UnitsOfDrop(lines, k, slot);
    forall i | 0 <= i < |rest| ensures SlotOf(rest[i]) != slot {
      SlotsDiffer(lines, lineSeq, if i < k then i else i + 1, k);
    }
    UnitsOfNone(rest, slot);
  }

  /** A line with the same product, guest and key is in the same slot, and the other way round. */
  lemma SameSlotExactly(l: Line, product: Id, modifiers: seq<Chosen>, note: string, seat: int)
    requires GoodLine(l) && Clean(Ids(modifiers))
    ensures SameSlot(l, product, OptionsHash(modifiers, Trim(note)), seat)
       <==> SlotOf(l) == Slot(product, multiset(Ids(modifiers)), Trim(note), seat)
  {
    TrimTwice(note);
    KeyIdentifies(Ids(l.modifiers), l.note, Ids(modifiers), Trim(note));
  }

  /** One line's quantity changes: so do the units of its slot, and no others. */
  lemma RequantifyIsExact(lines: seq<Line>, lineSeq: nat, k: nat, quantity: int, slot: Slot)
    requires Kept(lines, lineSeq) && k < |lines|
    ensures UnitsOf(lines[k := lines[k].(quantity := quantity)], slot)
         == if slot == SlotOf(lines[k]) then quantity else UnitsOf(lines, slot)
  {
    hide GoodLine;
    UnitsOfUpdate(lines, k, lines[k].(quantity := quantity), slot);
    UnitsOfLine(lines, lineSeq, k);
  }

  lemma AppendIsExact(lines: seq<Line>, l: Line, slot: Slot)
    requires forall i :: 0 <= i < |lines| ==> SlotOf(lines[i]) != SlotOf(l)
    ensures UnitsOf(lines + [l], slot) == if slot == SlotOf(l) then l.quantity else UnitsOf(lines, slot)
  {
    hide SlotOf;
    UnitsOfBoth(lines, [l], slot);
    assert [l][..0] == [];
    UnitsOfNone(lines, SlotOf(l));
  }

  /** The search by key finds the line of the slot, if there is one. */
  lemma FindsOwnSlot(lines: seq<Line>, lineSeq: nat, product: Id, modifiers: seq<Chosen>, note: string, seat: int)
    requires Kept(lines, lineSeq) && Clean(Ids(modifiers))
    ensures var own := Slot(product, multiset(Ids(modifiers)), Trim(note), seat);
      var k := FindSlot(lines, product, OptionsHash(modifiers, Trim(note)), seat, |lines|);
      if k < |lines| then SlotOf(lines[k]) == own else forall i :: 0 <= i < |lines| ==> SlotOf(lines[i]) != own
  {
    hide OptionsHash;
    hide Trim;
    hide SlotOf;
    forall i | 0 <= i < |lines|
      ensures SameSlot(lines[i], product, OptionsHash(modifiers, Trim(note)), seat)
         <==> SlotOf(lines[i]) == Slot(product, multiset(Ids(modifiers)), Trim(note), seat)
    {
      assert GoodLine(lines[i]);
      SameSlotExactly(lines[i], product, modifiers, note, seat);
    }
  }

  /** Adding a product adds its units to its slot, up to the cap, and touches no other slot. */
  lemma AddIsExact(s: State, product: Id, price: int, modifiers: seq<Chosen>, note: string, quantity: int, seat: int,
                   slot: Slot)
    requires KeptState(s) && quantity >= 1 && Clean(Ids(modifiers))
    ensures UnitsOf(AddLine(s, product, price, modifiers, note, quantity, seat).lines, slot)
         == if slot != Slot(product, multiset(Ids(modifiers)), Trim(note), seat) then UnitsOf(s.lines, slot)
            else if UnitsOf(s.lines, slot) + quantity < 99 then UnitsOf(s.lines, slot) + quantity else 99
  {
    hide GoodLine;
    hide OptionsHash;
    hide Trim;
    hide In;
    hide UnitsOf;
    var own, key := Slot(product, multiset(Ids(modifiers)), Trim(note), seat), OptionsHash(modifiers, Trim(note));
    var k := FindSlot(s.lines, product, key, seat, |s.lines|);
    FindsOwnSlot(s.lines, s.lineSeq, product, modifiers, note, seat);
    if k < |s.lines| {
      UnitsOfLine(s.lines, s.lineSeq, k);
      RequantifyIsExact(s.lines, s.lineSeq, k, Capped(s.lines[k].quantity + quantity), slot);
    } else {
      UnitsOfNone(s.lines, own);
      AppendIsExact(s.lines, Line(s.lineSeq + 1, product, price, Capped(quantity), modifiers, Trim(note), seat, key),
                    slot);
    }
  }

  lemma MergeIsExact(lines: seq<Line>, lineSeq: nat, t: nat, k: nat, slot: Slot)
    requires Kept(lines, lineSeq) && t < |lines| && k < |lines| && t != k
    ensures UnitsOf(Merged(lines, t, k), slot)
         == if slot == SlotOf(lines[t]) then 0
            else if slot == SlotOf(lines[k]) then Capped(UnitsOf(lines, slot) + lines[t].quantity)
            else UnitsOf(lines, slot)
  {
    hide GoodLine;
    hide SlotOf;
    var more := lines[k].(quantity := Capped(lines[k].quantity + lines[t].quantity));
    SlotsDiffer(lines, lineSeq, t, k);
    UnitsOfLine(lines, lineSeq, t);
    UnitsOfLine(lines, lineSeq, k);
    RequantifyIsExact(lines, lineSeq, k, more.quantity, slot);
    UnitsOfDrop(lines[k := more], t, slot);
  }

  lemma MoveIsExact(lines: seq<Line>, lineSeq: nat, t: nat, l: Line, slot: Slot)
    requires Kept(lines, lineSeq) && t < |lines| && l.quantity == lines[t].quantity && SlotOf(l) != SlotOf(lines[t])
    requires UnitsOf(lines, SlotOf(l)) == 0
    ensures UnitsOf(lines[t := l], slot)
         == if slot == SlotOf(lines[t]) then 0 else if slot == SlotOf(l) then l.quantity else UnitsOf(lines, slot)
  {
    hide GoodLine;
    hide SlotOf;
    UnitsOfLine(lines, lineSeq, t);
    UnitsOfUpdate(lines, t, l, slot);
  }

  lemma FindsItself(lines: seq<Line>, lineSeq: nat, t: nat)
    requires Kept(lines, lineSeq) && t < |lines|
    ensures FindLine(lines, lines[t].clientId) == t
  {
    hide GoodLine;
    var k := FindLine(lines, lines[t].clientId);
    assert k < t ==> Apart(lines[k], lines[t]);
  }

  /** The stepper changes the units of the line's slot, within 1 and the cap, and touches no other slot. */
  lemma ChangeIsExact(lines: seq<Line>, lineSeq: nat, t: nat, delta: int, slot: Slot)
    requires Kept(lines, lineSeq) && t < |lines|
    ensures UnitsOf(ChangeIn(lines, lines[t].clientId, delta), slot)
         == if slot != SlotOf(lines[t]) then UnitsOf(lines, slot)
            else if UnitsOf(lines, slot) + delta < 1 then 1
            else if UnitsOf(lines, slot) + delta > 99 then 99
            else UnitsOf(lines, slot) + delta
  {
    hide GoodLine;
    hide SlotOf;
    hide UnitsOf;
    var after := lines[t].(quantity := Stepped(lines[t].quantity, delta));
    forall i | 0 <= i < |lines| && i != t ensures lines[i].clientId != lines[t].clientId {
      assert if i < t then Apart(lines[i], lines[t]) else Apart(lines[t], lines[i]);
    }
    assert ChangeIn(lines, lines[t].clientId, delta) == lines[t := after];
    UnitsOfLine(lines, lineSeq, t);
    RequantifyIsExact(lines, lineSeq, t, after.quantity, slot);
  }

  lemma {:induction false} RemoveDropsOne(lines: seq<Line>, t: nat)
    requires t < |lines| && forall i :: 0 <= i < |lines| && i != t ==> lines[i].clientId != lines[t].clientId
    ensures RemoveFrom(lines, lines[t].clientId) == lines[..t] + lines[t + 1..]
  {
    var n := |lines| - 1;
    if t < n {
      RemoveDropsOne(lines[..n], t);
      assert lines[..n][..t] + lines[..n][t + 1..] + [lines[n]] == lines[..t] + lines[t + 1..];
    } else {
      RemoveKeepsAll(lines[..n], lines[t].clientId);
      assert lines[..t] + lines[t + 1..] == lines[..n];
    }
  }

  lemma {:induction false} RemoveKeepsAll(lines: seq<Line>, clientId: nat)
    requires forall i :: 0 <= i < |lines| ==> lines[i].clientId != clientId
    ensures RemoveFrom(lines, clientId) == lines
  {
    if lines != [] {
      RemoveKeepsAll(lines[..|lines| - 1], clientId);
    }
  }

  /** Removing a line empties its slot and touches no other. */
  lemma RemoveIsExact(lines: seq<Line>, lineSeq: nat, t: nat, slot: Slot)
    requires Kept(lines, lineSeq) && t < |lines|
    ensures UnitsOf(RemoveFrom(lines, lines[t].clientId), slot)
         == if slot == SlotOf(lines[t]) then 0 else UnitsOf(lines, slot)
  {
    hide GoodLine;
    hide SlotOf;
    forall i | 0 <= i < |lines| && i != t ensures lines[i].clientId != lines[t].clientId {
      assert if i < t then Apart(lines[i], lines[t]) else Apart(lines[t], lines[i]);
    }
    RemoveDropsOne(lines, t);
    UnitsOfLine(lines, lineSeq, t);
    UnitsOfDrop(lines, t, slot);
  }

  /** Editing a note moves the line's units to the slot of the new note, up to the cap there. */
  lemma EditIsExact(s: State, t: nat, note: string, slot: Slot)
    requires KeptState(s) && t < |s.lines| && Trim(note) != s.lines[t].note
    ensures var from := SlotOf(s.lines[t]); var target := from.(note := Trim(note));
      UnitsOf(EditIn(s.lines, s.lines[t].clientId, note), slot)
      == if slot == from then 0
         else if slot == target then
           if UnitsOf(s.lines, slot) + s.lines[t].quantity < 99 then UnitsOf(s.lines, slot) + s.lines[t].quantity
           else 99
         else UnitsOf(s.lines, slot)
  {
    hide OptionsHash;
    hide Trim;
    hide In;
    hide UnitsOf;
    var l, k := s.lines[t], TwinOf(s.lines, s.lines[t].clientId, note);
    FindsItself(s.lines, s.lineSeq, t);
    if k < |s.lines| {
      SameSlotExactly(s.lines[k], l.product, l.modifiers, note, l.seat);
      MergeIsExact(s.lines, s.lineSeq, t, k, slot);
    } else {
      NoTwin(s, t, note);
      MoveIsExact(s.lines, s.lineSeq, t, Renamed(l, note), slot);
    }
  }

  lemma NoTwin(s: State, t: nat, note: string)
    requires KeptState(s) && t < |s.lines| && Trim(note) != s.lines[t].note
    requires FindLine(s.lines, s.lines[t].clientId) == t && TwinOf(s.lines, s.lines[t].clientId, note) == |s.lines|
    ensures UnitsOf(s.lines, SlotOf(s.lines[t]).(note := Trim(note))) == 0
  {
    var l := s.lines[t];
    forall i | 0 <= i < |s.lines| ensures SlotOf(s.lines[i]) != SlotOf(l).(note := Trim(note)) {
      SameSlotExactly(s.lines[i], l.product, l.modifiers, note, l.seat);
    }
    UnitsOfNone(s.lines, SlotOf(l).(note := Trim(note)));
  }

  // ---------------------------------------------------------------- what an edit conserves

  /** Base price plus the chosen options' deltas. */
  function UnitPrice(l: Line): int {
    l.price + DeltaSum(l.modifiers)
  }

  function DeltaSum(modifiers: seq<Chosen>): int {
    if modifiers == [] then 0 else DeltaSum(modifiers[..|modifiers| - 1]) + modifiers[|modifiers| - 1].delta
  }

  function LineTotal(l: Line): int {
    UnitPrice(l) * l.quantity
  }

  function Total(lines: seq<Line>): int {
    if lines == [] then 0 else Total(lines[..|lines| - 1]) + LineTotal(lines[|lines| - 1])
  }

  lemma {:induction false} TotalsOfUpdate(lines: seq<Line>, k: nat, l: Line)
    requires k < |lines|
    ensures Total(lines[k := l]) == Total(lines) - LineTotal(lines[k]) + LineTotal(l)
  {
    var n := |lines| - 1;
    if k < n {
      TotalsOfUpdate(lines[..n], k, l);
      assert lines[k := l][..n] == lines[..n][k := l];
    } else {
      assert lines[k := l][..n] == lines[..n];
    }
  }

  lemma {:induction false} TotalsOfBoth(a: seq<Line>, b: seq<Line>)
    ensures Total(a + b) == Total(a) + Total(b)
  {
    hide LineTotal;
    if b == [] {
      assert a + b == a;
    } else {
      var n := |b| - 1;
      TotalsOfBoth(a, b[..n]);
      assert (a + b)[..|a| + n] == a + b[..n];
    }
  }

  lemma TotalOfOne(l: Line)
    ensures Total([l]) == LineTotal(l)
  {
    hide LineTotal;
    assert [l][..0] == [];
  }

  lemma TotalsOfDrop(lines: seq<Line>, t: nat)
    requires t < |lines|
    ensures Total(lines[..t] + lines[t + 1..]) == Total(lines) - LineTotal(lines[t])
  {
    hide LineTotal;
    hide Total;
    var (a, b, c) := (lines[..t], [lines[t]], lines[t + 1..]);
    assert lines == a + b + c;
    TotalsOfBoth(a + b, c);
    TotalsOfBoth(a, b);
    TotalsOfBoth(a, c);
    TotalOfOne(lines[t]);
  }

  /** Units that do not fit when an edit merges two lines. */
  function Overflow(lines: seq<Line>, clientId: nat, note: string): int {
    var t, k := FindLine(lines, clientId), TwinOf(lines, clientId, note);
    if t < |lines| && k < |lines| && lines[k].quantity + lines[t].quantity > MAX_LINE_QUANTITY
    then lines[k].quantity + lines[t].quantity - MAX_LINE_QUANTITY
    else 0
  }

  lemma MergeTotals(lines: seq<Line>, t: nat, k: nat, l: Line)
    requires t < |lines| && k < |lines| && t != k
    requires l == lines[k].(quantity := Capped(lines[k].quantity + lines[t].quantity))
    ensures Total(Merged(lines, t, k)) == Total(lines) - LineTotal(lines[k]) - LineTotal(lines[t]) + LineTotal(l)
  {
    TotalsOfUpdate(lines, k, l);
    TotalsOfDrop(lines[k := l], t);
  }

  /** One unit price: what the merged line misses is what overflowed. */
  lemma SharedPrice(a: Line, b: Line, c: Line, u: int, lost: int)
    requires UnitPrice(a) == u && UnitPrice(b) == u && UnitPrice(c) == u && c.quantity == a.quantity + b.quantity - lost
    ensures LineTotal(c) == LineTotal(a) + LineTotal(b) - u * lost
  {
    Spread(u, a.quantity, b.quantity, c.quantity, lost);
  }

  lemma Spread(u: int, a: int, b: int, c: int, lost: int)
    requires c == a + b - lost
    ensures u * c == u * a + u * b - u * lost
  {
  }

  lemma MergePrice(lines: seq<Line>, t: nat, k: nat, lost: int, u: int)
    requires t < |lines| && k < |lines| && t != k && UnitPrice(lines[k]) == u && UnitPrice(lines[t]) == u
    requires Capped(lines[k].quantity + lines[t].quantity) == lines[k].quantity + lines[t].quantity - lost
    ensures Total(Merged(lines, t, k)) == Total(lines) - u * lost
  {
    var l := lines[k].(quantity := Capped(lines[k].quantity + lines[t].quantity));
    MergeTotals(lines, t, k, l);
    SharedPrice(lines[k], lines[t], l, u, lost);
  }

  lemma RenamePrice(lines: seq<Line>, t: nat, note: string)
    requires t < |lines|
    ensures Total(lines[t := Renamed(lines[t], note)]) == Total(lines)
  {
    TotalsOfUpdate(lines, t, Renamed(lines[t], note));
  }

  /** The units an edit loses are those above 99 in the slot of the new note. */
  lemma OverflowInNumbers(s: State, t: nat, note: string)
    requires KeptState(s) && t < |s.lines| && Trim(note) != s.lines[t].note
    ensures var l := s.lines[t]; var together := UnitsOf(s.lines, SlotOf(l).(note := Trim(note))) + l.quantity;
      Overflow(s.lines, l.clientId, note) == if together > 99 then together - 99 else 0
  {
    hide OptionsHash;
    hide Trim;
    hide In;
    hide UnitsOf;
    var l, k := s.lines[t], TwinOf(s.lines, s.lines[t].clientId, note);
    FindsItself(s.lines, s.lineSeq, t);
    assert GoodLine(l);
    if k < |s.lines| {
      SameSlotExactly(s.lines[k], l.product, l.modifiers, note, l.seat);
      UnitsOfLine(s.lines, s.lineSeq, k);
    } else {
      NoTwin(s, t, note);
    }
  }

  /**
   * Where lines of one product with the same options cost the same, an edit changes the round's total by
   * exactly the price of the units that overflow.
   */
  lemma EditConservesPrice(lines: seq<Line>, lineSeq: nat, clientId: nat, note: string)
    requires Kept(lines, lineSeq) && FindLine(lines, clientId) < |lines|
    requires forall i, j :: (0 <= i < |lines| && 0 <= j < |lines| && lines[i].product == lines[j].product
                             && multiset(Ids(lines[i].modifiers)) == multiset(Ids(lines[j].modifiers))) ==>
      UnitPrice(lines[i]) == UnitPrice(lines[j])
    ensures var u, lost := UnitPrice(lines[FindLine(lines, clientId)]), Overflow(lines, clientId, note);
      Total(EditIn(lines, clientId, note)) == Total(lines) - u * lost
  {
    var t, k := FindLine(lines, clientId), TwinOf(lines, clientId, note);
    var u, lost := UnitPrice(lines[t]), Overflow(lines, clientId, note);
    if Trim(note) == lines[t].note {
      NoOverflow(u, lost);
    } else if k < |lines| {
      TwinHasSameOptions(lines, lineSeq, t, k, note);
      assert UnitPrice(lines[k]) == UnitPrice(lines[t]);
      MergePrice(lines, t, k, lost, u);
    } else {
      NoOverflow(u, lost);
      RenamePrice(lines, t, note);
    }
  }

  lemma NoOverflow(u: int, lost: int)
    requires lost == 0
    ensures u * lost == 0
  {
  }

  lemma TwinHasSameOptions(lines: seq<Line>, lineSeq: nat, t: nat, k: nat, note: string)
    requires Kept(lines, lineSeq) && t < |lines| && k < |lines|
    requires SameSlot(lines[k], lines[t].product, OptionsHash(lines[t].modifiers, Trim(note)), lines[t].seat)
    ensures multiset(Ids(lines[k].modifiers)) == multiset(Ids(lines[t].modifiers)) && lines[k].note == Trim(note)
  {
    TrimTwice(note);
    KeyIdentifies(Ids(lines[k].modifiers), lines[k].note, Ids(lines[t].modifiers), Trim(note));
  }

  // ---------------------------------------------------------------- the module variable

  /** The round with the counter that new lines take their id from. */
  class PendingRound {
    var lines: seq<Line>
    var lineSeq: nat

    ghost function Value(): State
      reads this
    {
      State(lines, lineSeq)
    }

    method AddProductToPending(product: Id, price: int, modifiers: seq<Chosen>, note: string, quantity: int, seat: int)
      modifies this
      ensures Value() == Do(old(Value()), Add(product, price, modifiers, note, quantity, seat))
    {
      var trimmed := Trim(note);
      var key := OptionsHash(modifiers, trimmed);
      var k := FindSlot(lines, product, key, seat, |lines|);
      if k < |lines| {
        lines := lines[k := lines[k].(quantity := Capped(lines[k].quantity + quantity))];
        return;
      }
      lineSeq := lineSeq + 1;
      lines := lines + [Line(lineSeq, product, price, Capped(quantity), modifiers, trimmed, seat, key)];
    }
  }
}
