/** Logical GPIO pins and the transformers between them: setting a pin drives the network behind it.

    Pins and transformers are heap objects. A ghost `Network` names the objects of one network and how they are wired;
    `Wired` says that the wiring is acyclic, that every driven pin has one driver, and that the pins' `dependentPin`
    fields agree with it. */
module GpioLogic {

  datatype PinState = On | Off | Unset

  function ToState(v: bool): PinState {
    if v then On else Off
  }

  datatype PinKind = Hardware | Virtual | Splitter

  datatype Operation = Follow | Not | And | Or | Xor

  /** A pin. `level` is the value of a virtual pin, or what was last written to a hardware pin (Unset: nothing yet). */
  class GpioPin {
    const kind: PinKind
    const outPin1: GpioPin?
    const outPin2: GpioPin?
    var level: PinState
    var dependentPin: GpioTransformer?

    constructor Virt()
      ensures kind == Virtual && outPin1 == null && outPin2 == null && level == Unset && dependentPin == null
    {
      kind, outPin1, outPin2 := Virtual, null, null;
      level, dependentPin := Unset, null;
    }

    constructor Hw()
      ensures kind == Hardware && outPin1 == null && outPin2 == null && level == Unset && dependentPin == null
    {
      kind, outPin1, outPin2 := Hardware, null, null;
      level, dependentPin := Unset, null;
    }

    constructor Split(p1: GpioPin, p2: GpioPin)
      ensures kind == Splitter && outPin1 == p1 && outPin2 == p2 && level == Unset && dependentPin == null
    {
      kind, outPin1, outPin2 := Splitter, p1, p2;
      level, dependentPin := Unset, null;
    }

    method Set(v: bool, ghost net: Network)
      requires Wired(net) && this in net.pins
      modifies net.pins`level
      ensures SetEffect(net, old(LevelsOf(net)), LevelsOf(net), this, v)
      decreases net.depth[this], 1
    {
      match kind
      case Hardware => SetHardware(v, net);
      case Virtual => SetVirtual(v, net);
      case Splitter => SetSplitter(v, net);
    }

    method SetHardware(v: bool, ghost net: Network)
      requires Wired(net) && this in net.pins && kind == Hardware
      modifies net.pins`level
      ensures SetEffect(net, old(LevelsOf(net)), LevelsOf(net), this, v)
    {
      hide SplittersDescend, OneDriverEach, Cone, Tree, Settled, Carries, SetEffect;
      level := ToState(v);
      assert LevelsOf(net) == old(LevelsOf(net))[this := ToState(v)];
      LeafEffect(net, old(LevelsOf(net)), this, v);
    }

    /** A virtual pin that changes updates what depends on it. */
    method SetVirtual(v: bool, ghost net: Network)
      requires Wired(net) && this in net.pins && kind == Virtual
      modifies net.pins`level
      ensures SetEffect(net, old(LevelsOf(net)), LevelsOf(net), this, v)
      decreases net.depth[this], 0
    {
      hide SplittersDescend, OneDriverEach, Cone, Tree, Settled, Carries, SetEffect, UpdateEffect;
      ghost var before := LevelsOf(net);
      if level != ToState(v) {
        level := ToState(v);
        ghost var middle := LevelsOf(net);
        assert middle == before[this := ToState(v)];
        LeafEffect(net, before, this, v);
        if dependentPin != null {
          dependentPin.Update(net);
          DependentEffect(net, before, middle, LevelsOf(net), this, v);
        }
      } else {
        NoEffect(net, before, this, v);
      }
    }

    method SetSplitter(v: bool, ghost net: Network)
      requires Wired(net) && this in net.pins && kind == Splitter
      modifies net.pins`level
      ensures SetEffect(net, old(LevelsOf(net)), LevelsOf(net), this, v)
      decreases net.depth[this], 0
    {
      hide GatesDescend, DependentsAgree, OneDriverEach, Cone, Tree, Settled, Carries, SetEffect;
      outPin1.Set(v, net);
      ghost var middle := LevelsOf(net);
      outPin2.Set(v, net);
      SplitterEffect(net, old(LevelsOf(net)), middle, LevelsOf(net), this, v);
    }
  }

  /** A transformer: drives its output pin from one virtual pin, or from two. */
  class GpioTransformer {
    const operation: Operation
    const inPin1: GpioPin
    const inPin2: GpioPin?
    const outPin: GpioPin

    constructor Unary(inPin: GpioPin, outPin: GpioPin, operation: Operation)
      requires operation == Follow || operation == Not
      requires inPin.dependentPin == null
      modifies inPin`dependentPin
      ensures inPin1 == inPin && inPin2 == null && this.outPin == outPin && this.operation == operation
      ensures inPin.dependentPin == this
    {
      this.operation := operation;
      this.inPin1 := inPin;
      this.inPin2 := null;
      this.outPin := outPin;
      new;
      inPin.dependentPin := this;
    }

    constructor Binary(inPin1: GpioPin, inPin2: GpioPin, outPin: GpioPin, operation: Operation)
      requires operation == And || operation == Or || operation == Xor
      requires inPin1 != inPin2 && inPin1.dependentPin == null && inPin2.dependentPin == null
      modifies inPin1`dependentPin, inPin2`dependentPin
      ensures this.inPin1 == inPin1 && this.inPin2 == inPin2 && this.outPin == outPin && this.operation == operation
      ensures inPin1.dependentPin == this && inPin2.dependentPin == this
    {
      this.operation := operation;
      this.inPin1 := inPin1;
      this.inPin2 := inPin2;
      this.outPin := outPin;
      new;
      inPin1.dependentPin := this;
      inPin2.dependentPin := this;
    }

    method Update(ghost net: Network)
      requires Wired(net) && this in net.gates
      requires inPin1.level != Unset || (inPin2 != null && inPin2.level != Unset)
      modifies net.pins`level
      ensures UpdateEffect(net, old(LevelsOf(net)), LevelsOf(net), this)
      decreases net.depth[outPin], 2
    {
      hide SplittersDescend, OneDriverEach, Cone, Tree, Settled, Carries, SetEffect, UpdateEffect;
      ghost var before := LevelsOf(net);
      match operation {
        case Follow | Not =>
          var p := inPin1.level;
          if p != Unset {
            outPin.Set(if operation == Follow then p == On else p == Off, net);
          }
        case And | Or | Xor =>
          var p1, p2 := inPin1.level, inPin2.level;
          var newValue := Unset;
          if p1 == Unset {
            newValue := p2;
          } else if p2 == Unset {
            newValue := p1;
          }
          if newValue == Unset {
            match operation
            case And => newValue := ToState(p1 == On && p2 == On);
            case Or => newValue := ToState(p1 == On || p2 == On);
            case Xor => newValue := ToState(p1 != p2);
            case _ =>
          }
          outPin.Set(newValue != Off, net);
      }
      OutputEffect(net, before, LevelsOf(net), this);
    }
  }

  // ---------- Networks

  /** The objects of a network, which transformer depends on a virtual pin, and a measure that falls from every pin to the
      pins driven from it. */
  datatype Network = Network(
    pins: set<GpioPin>,
    gates: set<GpioTransformer>,
    dep: map<GpioPin, GpioTransformer>,
    depth: map<GpioPin, nat>)

  ghost predicate OutputOf(s: GpioPin, p: GpioPin) {
    s.kind == Splitter && (p == s.outPin1 || p == s.outPin2)
  }

  ghost predicate InputOf(g: GpioTransformer, p: GpioPin) {
    p == g.inPin1 || p == g.inPin2
  }

  ghost predicate SplittersDescend(net: Network)
    requires net.depth.Keys == net.pins
  {
    forall s :: s in net.pins && s.kind == Splitter ==>
      && s.outPin1 != null && s.outPin1 in net.pins && net.depth[s.outPin1] < net.depth[s]
      && s.outPin2 != null && s.outPin2 in net.pins && net.depth[s.outPin2] < net.depth[s]
      && s.outPin1 != s.outPin2
  }

  ghost predicate GatesDescend(net: Network)
    requires net.depth.Keys == net.pins
  {
    forall g :: g in net.gates ==>
      && g.outPin in net.pins
      && g.inPin1 in net.pins && net.depth[g.outPin] < net.depth[g.inPin1] && g.inPin1.kind == Virtual
      && (g.inPin2 != null <==> g.operation == And || g.operation == Or || g.operation == Xor)
      && (g.inPin2 != null ==> g.inPin2 in net.pins && net.depth[g.outPin] < net.depth[g.inPin2] && g.inPin2.kind == Virtual)
  }

  ghost predicate DependentsAgree(net: Network) {
    && (forall p :: p in net.dep ==> p in net.pins && net.dep[p] in net.gates && InputOf(net.dep[p], p))
    && (forall g, p :: g in net.gates && p in net.pins && InputOf(g, p) ==> p in net.dep && net.dep[p] == g)
  }

  ghost predicate OneDriverEach(net: Network) {
    && (forall g, h :: g in net.gates && h in net.gates && g.outPin == h.outPin ==> g == h)
    && (forall g, s :: g in net.gates && s in net.pins ==> !OutputOf(s, g.outPin))
    && (forall s, t, p :: s in net.pins && t in net.pins && p in net.pins && OutputOf(s, p) && OutputOf(t, p) ==> s == t)
  }

  /** Acyclic, closed, and with one driver per driven pin. All of this is fixed when the objects are built. */
  ghost predicate Shaped(net: Network) {
    && net.depth.Keys == net.pins
    && SplittersDescend(net) && GatesDescend(net) && DependentsAgree(net) && OneDriverEach(net)
  }

  ghost predicate Connected(net: Network)
    reads net.pins`dependentPin
  {
    forall p :: p in net.pins ==> p.dependentPin == if p in net.dep then net.dep[p] else null
  }

  ghost predicate Wired(net: Network)
    reads net.pins`dependentPin
  {
    Shaped(net) && Connected(net)
  }

  /** Every pin that setting p may reach. */
  ghost function Cone(net: Network, p: GpioPin): set<GpioPin>
    requires Shaped(net) && p in net.pins
    decreases net.depth[p]
  {
    {p} + (if p.kind == Splitter then Cone(net, p.outPin1) + Cone(net, p.outPin2)
           else if p in net.dep then Cone(net, net.dep[p].outPin)
           else {})
  }

  /** The pins that take the same value as p: p itself and, through splitters, the pins it is split into. */
  ghost function Tree(net: Network, p: GpioPin): set<GpioPin>
    requires Shaped(net) && p in net.pins
    decreases net.depth[p]
  {
    {p} + if p.kind == Splitter then Tree(net, p.outPin1) + Tree(net, p.outPin2) else {}
  }

  type Levels = map<GpioPin, PinState>

  ghost function LevelsOf(net: Network): Levels
    reads net.pins`level
  {
    map p | p in net.pins :: p.level
  }

  ghost predicate Carries(net: Network, lv: Levels, p: GpioPin, v: bool)
    requires Shaped(net) && p in net.pins && lv.Keys == net.pins
    decreases net.depth[p]
  {
    if p.kind == Splitter then Carries(net, lv, p.outPin1, v) && Carries(net, lv, p.outPin2, v) else lv[p] == ToState(v)
  }

  /** A transformer's function of its inputs; of the one that is set if only one is, of none if none is. */
  function Expected(operation: Operation, p1: PinState, p2: PinState): PinState {
    match operation
    case Follow => p1
    case Not => if p1 == Unset then Unset else ToState(p1 == Off)
    case And | Or | Xor =>
      if p1 == Unset then p2
      else if p2 == Unset then p1
      else if operation == And then ToState(p1 == On && p2 == On)
      else if operation == Or then ToState(p1 == On || p2 == On)
      else ToState(p1 != p2)
  }

  ghost function ExpectedOf(net: Network, lv: Levels, g: GpioTransformer): PinState
    requires Shaped(net) && g in net.gates && lv.Keys == net.pins
  {
    Expected(g.operation, lv[g.inPin1], if g.inPin2 != null then lv[g.inPin2] else Unset)
  }

  /** If an input is set, the output has the value of the function of the current inputs. */
  ghost predicate Settled(net: Network, lv: Levels, g: GpioTransformer)
    requires Shaped(net) && g in net.gates && lv.Keys == net.pins
  {
    var e := ExpectedOf(net, lv, g);
    e != Unset ==> Carries(net, lv, g.outPin, e == On)
  }

  ghost predicate InputChanged(net: Network, before: Levels, after: Levels, g: GpioTransformer)
    requires Shaped(net) && g in net.gates && before.Keys == net.pins && after.Keys == net.pins
  {
    before[g.inPin1] != after[g.inPin1] || (g.inPin2 != null && before[g.inPin2] != after[g.inPin2])
  }

  /** What setting a pin does: the pin carries the value, pins it cannot reach keep theirs, every transformer that was
      settled still is, except one that drives this very pin, and every transformer whose input has changed is. */
  ghost predicate SetEffect(net: Network, before: Levels, after: Levels, pin: GpioPin, v: bool)
    requires Shaped(net) && pin in net.pins
  {
    && before.Keys == net.pins && after.Keys == net.pins
    && Carries(net, after, pin, v)
    && (forall p :: p in net.pins && p !in Cone(net, pin) ==> after[p] == before[p])
    && (forall g :: g in net.gates && pin !in Tree(net, g.outPin) && Settled(net, before, g) ==> Settled(net, after, g))
    && (forall g :: g in net.gates && InputChanged(net, before, after, g) ==> Settled(net, after, g))
  }

  /** What updating a transformer does: it is settled, pins it cannot reach keep theirs, what was settled still is, and so
      is every transformer whose input has changed. */
  ghost predicate UpdateEffect(net: Network, before: Levels, after: Levels, g: GpioTransformer)
    requires Shaped(net) && g in net.gates
  {
    && before.Keys == net.pins && after.Keys == net.pins
    && Settled(net, after, g)
    && (forall p :: p in net.pins && p !in Cone(net, g.outPin) ==> after[p] == before[p])
    && (forall h :: h in net.gates && Settled(net, before, h) ==> Settled(net, after, h))
    && (forall h :: h in net.gates && InputChanged(net, before, after, h) ==> Settled(net, after, h))
  }

  // ---------- The geometry of a network

  lemma {:induction false} ConeIsBelow(net: Network, p: GpioPin, x: GpioPin)
    requires Shaped(net) && p in net.pins && x in Cone(net, p)
    ensures x in net.pins && (x == p || net.depth[x] < net.depth[p])
    decreases net.depth[p]
  {
    if x != p {
      if p.kind == Splitter {
        ConeIsBelow(net, if x in Cone(net, p.outPin1) then p.outPin1 else p.outPin2, x);
      } else {
        ConeIsBelow(net, net.dep[p].outPin, x);
      }
    }
  }

  /** What is reached from p is reached through its one driver. */
  lemma {:induction false} ConeThroughSplitter(net: Network, p: GpioPin, x: GpioPin, s: GpioPin)
    requires Shaped(net) && p in net.pins && x in Cone(net, p) && x != p
    requires s in net.pins && OutputOf(s, x)
    ensures s in Cone(net, p)
    decreases net.depth[p]
  {
    if p.kind == Splitter {
      var c := if x in Cone(net, p.outPin1) then p.outPin1 else p.outPin2;
      if x == c {
        assert OutputOf(p, x);
      } else {
        ConeThroughSplitter(net, c, x, s);
      }
    } else {
      assert net.dep[p] in net.gates;
      ConeThroughSplitter(net, net.dep[p].outPin, x, s);
    }
  }

  lemma {:induction false} TreeThroughSplitter(net: Network, p: GpioPin, x: GpioPin, s: GpioPin)
    requires Shaped(net) && p in net.pins && x in Tree(net, p) && x != p
    requires s in net.pins && OutputOf(s, x)
    ensures s in Tree(net, p)
    decreases net.depth[p]
  {
    var c := if x in Tree(net, p.outPin1) then p.outPin1 else p.outPin2;
    if x == c {
      assert OutputOf(p, x);
    } else {
      TreeThroughSplitter(net, c, x, s);
    }
  }

  lemma {:induction false} TreeInCone(net: Network, p: GpioPin)
    requires Shaped(net) && p in net.pins
    ensures Tree(net, p) <= Cone(net, p)
    decreases net.depth[p]
  {
    if p.kind == Splitter {
      TreeInCone(net, p.outPin1);
      TreeInCone(net, p.outPin2);
    }
  }

  /** A tree and a cone that meet are nested at one of their roots. */
  lemma {:induction false} TreeMeetsCone(net: Network, r: GpioPin, c: GpioPin, x: GpioPin)
    requires Shaped(net) && r in net.pins && c in net.pins
    requires x in Tree(net, r) && x in Cone(net, c)
    ensures r in Cone(net, c) || c in Tree(net, r)
    decreases net.depth[r]
  {
    if x != r {
      var o := if x in Tree(net, r.outPin1) then r.outPin1 else r.outPin2;
      TreeMeetsCone(net, o, c, x);
      if o in Cone(net, c) && o != c {
        ConeThroughSplitter(net, c, o, r);
      }
    }
  }

  /** The two sides of a splitter do not meet: setting one leaves what the other carries. */
  lemma SidesApart(net: Network, s: GpioPin, x: GpioPin)
    requires Shaped(net) && s in net.pins && s.kind == Splitter
    requires x in Tree(net, s.outPin1)
    ensures x !in Cone(net, s.outPin2)
  {
    var o1, o2 := s.outPin1, s.outPin2;
    assert OutputOf(s, o1) && OutputOf(s, o2);
    if x in Cone(net, o2) {
      TreeMeetsCone(net, o1, o2, x);
      if o1 in Cone(net, o2) {
        ConeThroughSplitter(net, o2, o1, s);
        ConeIsBelow(net, o2, s);
      } else {
        TreeInCone(net, o1);
        ConeThroughSplitter(net, o1, o2, s);
        ConeIsBelow(net, o1, s);
      }
    }
  }

  /** The output of a transformer lies in the tree of no other transformer's output. */
  lemma OneDriver(net: Network, g: GpioTransformer, h: GpioTransformer)
    requires Shaped(net) && g in net.gates && h in net.gates && g.outPin in Tree(net, h.outPin)
    ensures g == h
  {
    if g.outPin != h.outPin {
      ParentInTree(net, h.outPin, g.outPin);
    }
  }

  lemma {:induction false} ParentInTree(net: Network, p: GpioPin, x: GpioPin)
    requires Shaped(net) && p in net.pins && x in Tree(net, p) && x != p
    ensures exists s :: s in net.pins && OutputOf(s, x)
    decreases net.depth[p]
  {
    var c := if x in Tree(net, p.outPin1) then p.outPin1 else p.outPin2;
    if x == c {
      assert OutputOf(p, x);
    } else {
      ParentInTree(net, c, x);
    }
  }

  lemma SplitterInTree(net: Network, g: GpioTransformer, s: GpioPin)
    requires Shaped(net) && g in net.gates && s in net.pins && s.kind == Splitter && s !in Tree(net, g.outPin)
    ensures s.outPin1 !in Tree(net, g.outPin) && s.outPin2 !in Tree(net, g.outPin)
  {
    assert OutputOf(s, s.outPin1) && OutputOf(s, s.outPin2);
    if s.outPin1 in Tree(net, g.outPin) {
      TreeThroughSplitter(net, g.outPin, s.outPin1, s);
    }
    if s.outPin2 in Tree(net, g.outPin) {
      TreeThroughSplitter(net, g.outPin, s.outPin2, s);
    }
  }

  // ---------- What a change leaves alone

  lemma {:induction false} CarriesKept(net: Network, before: Levels, after: Levels, p: GpioPin, v: bool)
    requires Shaped(net) && p in net.pins && before.Keys == net.pins && after.Keys == net.pins
    requires forall x :: x in net.pins && x in Tree(net, p) ==> after[x] == before[x]
    ensures Carries(net, after, p, v) == Carries(net, before, p, v)
    decreases net.depth[p]
  {
    if p.kind == Splitter {
      CarriesKept(net, before, after, p.outPin1, v);
      CarriesKept(net, before, after, p.outPin2, v);
    }
  }

  lemma SettledKept(net: Network, before: Levels, after: Levels, g: GpioTransformer)
    requires Shaped(net) && g in net.gates && before.Keys == net.pins && after.Keys == net.pins
    requires forall p :: p in net.pins && InputOf(g, p) ==> after[p] == before[p]
    requires forall x :: x in net.pins && x in Tree(net, g.outPin) ==> after[x] == before[x]
    ensures Settled(net, after, g) == Settled(net, before, g)
  {
    CarriesKept(net, before, after, g.outPin, true);
    CarriesKept(net, before, after, g.outPin, false);
  }

  /** A single changed level concerns only the transformer it is an input of and the one that drives it. */
  lemma LeafEffect(net: Network, before: Levels, pin: GpioPin, v: bool)
    requires Shaped(net) && pin in net.pins && before.Keys == net.pins && pin.kind != Splitter
    ensures var after := before[pin := ToState(v)];
            && after.Keys == net.pins && Carries(net, after, pin, v)
            && (forall g :: g in net.gates && pin !in Tree(net, g.outPin) && !InputOf(g, pin) ==>
                  Settled(net, after, g) == Settled(net, before, g))
            && (forall g :: g in net.gates && InputChanged(net, before, after, g) ==> InputOf(g, pin))
            && (pin !in net.dep ==> SetEffect(net, before, after, pin, v))
  {
    var after := before[pin := ToState(v)];
    forall g | g in net.gates && pin !in Tree(net, g.outPin) && !InputOf(g, pin)
      ensures Settled(net, after, g) == Settled(net, before, g)
    {
      SettledKept(net, before, after, g);
    }
  }

  lemma NoEffect(net: Network, lv: Levels, pin: GpioPin, v: bool)
    requires Shaped(net) && pin in net.pins && lv.Keys == net.pins && pin.kind != Splitter && lv[pin] == ToState(v)
    ensures SetEffect(net, lv, lv, pin, v)
  {
  }

  /** A changed virtual pin followed by the update of its dependent. */
  lemma DependentEffect(net: Network, before: Levels, middle: Levels, after: Levels, pin: GpioPin, v: bool)
    requires Shaped(net) && pin in net.dep && before.Keys == net.pins && pin.kind == Virtual
    requires middle == before[pin := ToState(v)]
    requires UpdateEffect(net, middle, after, net.dep[pin])
    ensures SetEffect(net, before, after, pin, v)
  {
    hide Settled;
    var dep := net.dep[pin];
    LeafEffect(net, before, pin, v);
    if pin in Cone(net, dep.outPin) {
      ConeIsBelow(net, dep.outPin, pin);
    }
    forall g | g in net.gates && pin !in Tree(net, g.outPin) && Settled(net, before, g)
      ensures Settled(net, after, g)
    {
      if g != dep {
        assert !InputOf(g, pin);
        assert Settled(net, middle, g);
      }
    }
    forall g | g in net.gates && InputChanged(net, before, after, g)
      ensures Settled(net, after, g)
    {
      if g != dep {
        assert !InputOf(g, pin);
        assert InputChanged(net, middle, after, g);
      }
    }
  }

  lemma SplitterEffect(net: Network, before: Levels, middle: Levels, after: Levels, s: GpioPin, v: bool)
    requires Shaped(net) && s in net.pins && s.kind == Splitter
    requires SetEffect(net, before, middle, s.outPin1, v) && SetEffect(net, middle, after, s.outPin2, v)
    ensures SetEffect(net, before, after, s, v)
  {
    hide Settled, InputChanged;
    forall x | x in net.pins && x in Tree(net, s.outPin1)
      ensures after[x] == middle[x]
    {
      SidesApart(net, s, x);
    }
    CarriesKept(net, middle, after, s.outPin1, v);
    forall g | g in net.gates && s !in Tree(net, g.outPin) && Settled(net, before, g)
      ensures Settled(net, after, g)
    {
      SplitterInTree(net, g, s);
      assert Settled(net, middle, g);
    }
    forall g | g in net.gates && InputChanged(net, before, after, g)
      ensures Settled(net, after, g)
    {
      if !InputChanged(net, middle, after, g) {
        ChangedInStep(net, before, middle, after, g);
        ChangedAboveTree(net, before, middle, s, g, v);
      }
    }
  }

  lemma ChangedInStep(net: Network, before: Levels, middle: Levels, after: Levels, g: GpioTransformer)
    requires Shaped(net) && g in net.gates
    requires before.Keys == net.pins && middle.Keys == net.pins && after.Keys == net.pins
    requires InputChanged(net, before, after, g) && !InputChanged(net, middle, after, g)
    ensures InputChanged(net, before, middle, g)
  {
  }

  /** A transformer whose input changes when the first side of a splitter is set does not drive that splitter. */
  lemma ChangedAboveTree(net: Network, before: Levels, middle: Levels, s: GpioPin, g: GpioTransformer, v: bool)
    requires Shaped(net) && s in net.pins && s.kind == Splitter && g in net.gates
    requires SetEffect(net, before, middle, s.outPin1, v) && InputChanged(net, before, middle, g)
    ensures s.outPin2 !in Tree(net, g.outPin)
  {
    hide Settled;
    var p := if before[g.inPin1] != middle[g.inPin1] then g.inPin1 else g.inPin2;
    assert p in Cone(net, s.outPin1);
    ConeIsBelow(net, s.outPin1, p);
    if s in Tree(net, g.outPin) {
      TreeInCone(net, g.outPin);
      ConeIsBelow(net, g.outPin, s);
    }
    SplitterInTree(net, g, s);
  }

  /** A transformer whose output has just been set from its inputs: the inputs lie above the output and are unchanged. */
  lemma OutputEffect(net: Network, before: Levels, after: Levels, g: GpioTransformer)
    requires Shaped(net) && g in net.gates && before.Keys == net.pins
    requires ExpectedOf(net, before, g) != Unset
    requires SetEffect(net, before, after, g.outPin, ExpectedOf(net, before, g) == On)
    ensures UpdateEffect(net, before, after, g)
  {
    forall p | p in net.pins && InputOf(g, p)
      ensures after[p] == before[p]
    {
      if p in Cone(net, g.outPin) {
        ConeIsBelow(net, g.outPin, p);
      }
    }
    assert ExpectedOf(net, after, g) == ExpectedOf(net, before, g);
    forall h | h in net.gates && Settled(net, before, h)
      ensures Settled(net, after, h)
    {
      if g.outPin in Tree(net, h.outPin) {
        OneDriver(net, g, h);
      }
    }
  }

  lemma {:induction false} CarriesOneValue(net: Network, lv: Levels, p: GpioPin)
    requires Shaped(net) && p in net.pins && lv.Keys == net.pins
    ensures !(Carries(net, lv, p, true) && Carries(net, lv, p, false))
    decreases net.depth[p]
  {
    if p.kind == Splitter {
      CarriesOneValue(net, lv, p.outPin1);
    }
  }

  // ---------- What that means for the levels

  /** A pin that carries a value has it at every pin it is split into. */
  lemma {:induction false} CarriesLevels(net: Network, lv: Levels, p: GpioPin, v: bool, x: GpioPin)
    requires Shaped(net) && p in net.pins && lv.Keys == net.pins && Carries(net, lv, p, v)
    requires x in Tree(net, p) && x.kind != Splitter
    ensures x in net.pins && (v ==> lv[x] == On) && (!v ==> lv[x] == Off)
    decreases net.depth[p]
  {
    if p.kind == Splitter {
      CarriesLevels(net, lv, if x in Tree(net, p.outPin1) then p.outPin1 else p.outPin2, v, x);
    }
  }

  /** A settled transformer by its levels: the input or its opposite; a set input alone; whether both, one or exactly one of
      two set inputs is on. */
  lemma GateDrives(net: Network, lv: Levels, g: GpioTransformer, x: GpioPin)
    requires Shaped(net) && g in net.gates && lv.Keys == net.pins && Settled(net, lv, g)
    requires x in Tree(net, g.outPin) && x.kind != Splitter
    ensures x in net.pins
    ensures g.operation == Follow && lv[g.inPin1] != Unset ==> lv[x] == lv[g.inPin1]
    ensures g.operation == Not && lv[g.inPin1] == On ==> lv[x] == Off
    ensures g.operation == Not && lv[g.inPin1] == Off ==> lv[x] == On
    ensures g.inPin2 != null && lv[g.inPin1] == Unset && lv[g.inPin2] != Unset ==> lv[x] == lv[g.inPin2]
    ensures g.inPin2 != null && lv[g.inPin2] == Unset && lv[g.inPin1] != Unset ==> lv[x] == lv[g.inPin1]
    ensures g.inPin2 != null && lv[g.inPin1] != Unset && lv[g.inPin2] != Unset ==>
              && lv[x] != Unset
              && (g.operation == And ==> (lv[x] == On <==> lv[g.inPin1] == On && lv[g.inPin2] == On))
              && (g.operation == Or ==> (lv[x] == On <==> lv[g.inPin1] == On || lv[g.inPin2] == On))
              && (g.operation == Xor ==> (lv[x] == On <==> lv[g.inPin1] != lv[g.inPin2]))
  {
    hide SplittersDescend, DependentsAgree, OneDriverEach, Tree, Carries;
    var e := ExpectedOf(net, lv, g);
    if e != Unset {
      CarriesLevels(net, lv, g.outPin, e == On, x);
    } else {
      InTree(net, g.outPin, x);
    }
  }

  lemma InTree(net: Network, p: GpioPin, x: GpioPin)
    requires Shaped(net) && p in net.pins && x in Tree(net, p)
    ensures x in net.pins
  {
    hide Tree, Cone;
    TreeInCone(net, p);
    ConeIsBelow(net, p, x);
  }

  /** Setting by hand the very pin a transformer drives leaves that transformer settled exactly if the value is the one it
      would have driven. */
  lemma DrivenByHand(net: Network, before: Levels, after: Levels, g: GpioTransformer, v: bool)
    requires Shaped(net) && g in net.gates && before.Keys == net.pins
    requires ExpectedOf(net, before, g) != Unset
    requires SetEffect(net, before, after, g.outPin, v)
    ensures Settled(net, after, g) <==> v == (ExpectedOf(net, before, g) == On)
  {
    forall p | p in net.pins && InputOf(g, p)
      ensures after[p] == before[p]
    {
      if p in Cone(net, g.outPin) {
        ConeIsBelow(net, g.outPin, p);
      }
    }
    CarriesOneValue(net, after, g.outPin);
  }

  // ---------- Runs

  ghost predicate AllSettled(net: Network, lv: Levels)
    requires Shaped(net) && lv.Keys == net.pins
  {
    forall g :: g in net.gates ==> Settled(net, lv, g)
  }

  lemma UnsetIsSettled(net: Network, lv: Levels)
    requires Shaped(net) && lv.Keys == net.pins && forall p :: p in net.pins ==> lv[p] == Unset
    ensures AllSettled(net, lv)
  {
  }

  ghost predicate Undriven(net: Network, pin: GpioPin)
    requires Shaped(net)
  {
    forall g :: g in net.gates ==> pin !in Tree(net, g.outPin)
  }

  /** Any run of set calls from outside on a network that starts settled, as one that is all unset does: afterwards every
      transformer with a set input drives the function of its current inputs, and every call has taken effect at its
      pin. */
  method Drive(net: Network, calls: seq<(GpioPin, bool)>)
    requires Wired(net) && AllSettled(net, LevelsOf(net))
    requires forall i :: 0 <= i < |calls| ==> calls[i].0 in net.pins && Undriven(net, calls[i].0)
    modifies net.pins`level
    ensures AllSettled(net, LevelsOf(net))
    ensures calls != [] ==> Carries(net, LevelsOf(net), calls[|calls| - 1].0, calls[|calls| - 1].1)
  {
    hide SplittersDescend, GatesDescend, DependentsAgree, OneDriverEach, Cone, Tree, Carries;
    hide Settled;
    var i := 0;
    while i < |calls|
      invariant 0 <= i <= |calls|
      invariant AllSettled(net, LevelsOf(net))
      invariant i > 0 ==> Carries(net, LevelsOf(net), calls[i - 1].0, calls[i - 1].1)
    {
      ghost var before := LevelsOf(net);
      var (pin, v) := calls[i];
      pin.Set(v, net);
      assert SetEffect(net, before, LevelsOf(net), pin, v);
      i := i + 1;
    }
  }

  // ---------- Attaching a transformer late

  lemma {:induction false} CarriesInLarger(net: Network, larger: Network, lv: Levels, p: GpioPin, v: bool)
    requires Shaped(net) && Shaped(larger) && larger.pins == net.pins && lv.Keys == net.pins && p in net.pins
    ensures Carries(larger, lv, p, v) == Carries(net, lv, p, v)
    decreases net.depth[p]
  {
    hide DependentsAgree, OneDriverEach, GatesDescend;
    if p.kind == Splitter {
      CarriesInLarger(net, larger, lv, p.outPin1, v);
      CarriesInLarger(net, larger, lv, p.outPin2, v);
    }
  }

  ghost predicate Larger(net: Network, larger: Network, g: GpioTransformer) {
    larger.pins == net.pins && g !in net.gates && larger.gates == net.gates + {g}
  }

  /** Attaching a transformer changes no level. It leaves a settled network settled exactly if it is itself settled at the
      levels of that moment: none of its inputs is set, or its output already carries its function of them. */
  lemma AttachedSettledIff(net: Network, larger: Network, lv: Levels, g: GpioTransformer)
    requires Shaped(net) && Shaped(larger) && Larger(net, larger, g) && lv.Keys == net.pins && AllSettled(net, lv)
    ensures AllSettled(larger, lv) <==> Settled(larger, lv, g)
    ensures Settled(larger, lv, g) <==>
              || (lv[g.inPin1] == Unset && (g.inPin2 != null ==> lv[g.inPin2] == Unset))
              || Carries(larger, lv, g.outPin, ExpectedOf(larger, lv, g) == On)
  {
    forall h | h in net.gates
      ensures Settled(larger, lv, h)
    {
      assert Settled(net, lv, h);
      CarriesInLarger(net, larger, lv, h.outPin, true);
      CarriesInLarger(net, larger, lv, h.outPin, false);
    }
    assert g.inPin2 == null <==> g.operation == Follow || g.operation == Not;
  }

  /** If it is not, the first set that changes one of its inputs, from wherever, settles the whole network. */
  lemma LateOneSettles(net: Network, before: Levels, after: Levels, g: GpioTransformer, pin: GpioPin, v: bool)
    requires Shaped(net) && g in net.gates && pin in net.pins && SetEffect(net, before, after, pin, v)
    requires forall h :: h in net.gates && h != g ==> Settled(net, before, h)
    requires Undriven(net, pin) && InputChanged(net, before, after, g)
    ensures AllSettled(net, after)
  {
    hide Settled, InputChanged;
  }

  // ---------- The power network of the Heltec tracker

  /** The screen's enable signal is split to the screen itself and to a virtual pin, which is one input of an Or; the GPS
      enable signal is the other. */
  ghost predicate IsTracker(net: Network, gps: GpioPin, splitter: GpioPin, virt: GpioPin, phys: GpioPin, regulator: GpioPin,
                            either: GpioTransformer) {
    && splitter.kind == Splitter && splitter.outPin1 == virt && splitter.outPin2 == phys
    && virt.kind == Virtual && gps.kind == Virtual && phys.kind == Hardware && regulator.kind == Hardware
    && gps != virt && phys != regulator
    && either.inPin1 == gps && either.inPin2 == virt && either.outPin == regulator && either.operation == Or
    && net.pins == {gps, virt, phys, splitter, regulator} && net.gates == {either}
    && net.dep == map[gps := either, virt := either]
    && net.depth == map[regulator := 0, phys := 0, gps := 1, virt := 1, splitter := 2]
  }

  lemma TrackerDescends(net: Network, gps: GpioPin, splitter: GpioPin, virt: GpioPin, phys: GpioPin, regulator: GpioPin,
                        either: GpioTransformer)
    requires IsTracker(net, gps, splitter, virt, phys, regulator, either)
    ensures net.depth.Keys == net.pins && SplittersDescend(net) && GatesDescend(net)
  {
  }

  lemma TrackerAgrees(net: Network, gps: GpioPin, splitter: GpioPin, virt: GpioPin, phys: GpioPin, regulator: GpioPin,
                      either: GpioTransformer)
    requires IsTracker(net, gps, splitter, virt, phys, regulator, either)
    ensures DependentsAgree(net) && OneDriverEach(net)
  {
  }

  lemma TrackerShaped(net: Network, gps: GpioPin, splitter: GpioPin, virt: GpioPin, phys: GpioPin, regulator: GpioPin,
                      either: GpioTransformer)
    requires IsTracker(net, gps, splitter, virt, phys, regulator, either)
    ensures Shaped(net)
  {
    hide SplittersDescend, GatesDescend, DependentsAgree, OneDriverEach;
    TrackerDescends(net, gps, splitter, virt, phys, regulator, either);
    TrackerAgrees(net, gps, splitter, virt, phys, regulator, either);
  }

  lemma TrackerReach(net: Network, gps: GpioPin, splitter: GpioPin, virt: GpioPin, phys: GpioPin, regulator: GpioPin,
                     either: GpioTransformer)
    requires IsTracker(net, gps, splitter, virt, phys, regulator, either) && Shaped(net)
    ensures virt !in Cone(net, gps) && gps !in Tree(net, regulator) && splitter !in Tree(net, regulator)
    ensures forall lv: Levels, v :: lv.Keys == net.pins && Carries(net, lv, splitter, v) ==> lv[virt] == ToState(v)
  {
    hide SplittersDescend, GatesDescend, DependentsAgree, OneDriverEach;
    assert Cone(net, gps) == {gps} + Cone(net, regulator);
  }

  method BuildTracker()
    returns (gps: GpioPin, splitter: GpioPin, regulator: GpioPin, ghost virt: GpioPin, ghost phys: GpioPin,
             ghost either: GpioTransformer, ghost net: Network)
    ensures IsTracker(net, gps, splitter, virt, phys, regulator, either)
    ensures Wired(net) && fresh(net.pins)
    ensures forall p :: p in net.pins ==> p.level == Unset
  {
    hide Shaped;
    gps := new GpioPin.Virt();
    var v := new GpioPin.Virt();
    var w := new GpioPin.Hw();
    splitter := new GpioPin.Split(v, w);
    regulator := new GpioPin.Hw();
    var g := new GpioTransformer.Binary(gps, v, regulator, Or);
    virt, phys, either := v, w, g;
    net := Network({gps, virt, phys, splitter, regulator}, {either}, map[gps := either, virt := either],
                   map[regulator := 0, phys := 0, gps := 1, virt := 1, splitter := 2]);
    TrackerShaped(net, gps, splitter, virt, phys, regulator, either);
  }

  lemma CarriesLevel(net: Network, lv: Levels, p: GpioPin, v: bool)
    requires Shaped(net) && p in net.pins && lv.Keys == net.pins && p.kind != Splitter && Carries(net, lv, p, v)
    ensures lv[p] == ToState(v)
  {
  }

  /** One regulator for GPS and screen. With the Or attached before the first set, the regulator always follows. */
  method TrackerPower(gpsOn: bool, screenOn: bool) returns (regulator: GpioPin)
    ensures fresh(regulator) && regulator.level == ToState(gpsOn || screenOn)
  {
    var gps, splitter;
    ghost var virt, phys, either, net;
    gps, splitter, regulator, virt, phys, either, net := BuildTracker();
    TrackerReach(net, gps, splitter, virt, phys, regulator, either);
    UnsetIsSettled(net, LevelsOf(net));
    hide SplittersDescend, GatesDescend, DependentsAgree, OneDriverEach, Cone, Tree, Settled, Carries, Connected;
    splitter.Set(screenOn, net);
    ghost var lv1 := LevelsOf(net);
    assert lv1[virt] == ToState(screenOn);
    gps.Set(gpsOn, net);
    ghost var lv2 := LevelsOf(net);
    assert lv2[virt] == lv1[virt];
    CarriesLevel(net, lv2, gps, gpsOn);
    assert Settled(net, lv2, either);
    assert regulator.level == lv2[regulator];
    FollowsOr(net, lv2, either, gpsOn, screenOn);
  }

  lemma FollowsOr(net: Network, lv: Levels, g: GpioTransformer, a: bool, b: bool)
    requires Shaped(net) && g in net.gates && lv.Keys == net.pins && Settled(net, lv, g)
    requires g.operation == Or && g.outPin.kind == Hardware && lv[g.inPin1] == ToState(a) && lv[g.inPin2] == ToState(b)
    ensures lv[g.outPin] == ToState(a || b)
  {
  }

  /** The tracker's network without its gate. */
  ghost predicate IsGateless(net: Network, gps: GpioPin, splitter: GpioPin, virt: GpioPin, phys: GpioPin,
                             regulator: GpioPin) {
    && splitter.kind == Splitter && splitter.outPin1 == virt && splitter.outPin2 == phys
    && virt.kind == Virtual && gps.kind == Virtual && phys.kind == Hardware && regulator.kind == Hardware
    && phys != regulator && gps != virt
    && net.pins == {gps, virt, phys, splitter, regulator} && net.gates == {} && net.dep == map[]
    && net.depth == map[regulator := 0, phys := 0, gps := 1, virt := 1, splitter := 2]
  }

  lemma GatelessDescends(net: Network, gps: GpioPin, splitter: GpioPin, virt: GpioPin, phys: GpioPin, regulator: GpioPin)
    requires IsGateless(net, gps, splitter, virt, phys, regulator)
    ensures net.depth.Keys == net.pins && SplittersDescend(net) && GatesDescend(net)
  {
  }

  lemma GatelessShaped(net: Network, gps: GpioPin, splitter: GpioPin, virt: GpioPin, phys: GpioPin, regulator: GpioPin)
    requires IsGateless(net, gps, splitter, virt, phys, regulator)
    ensures Shaped(net)
  {
    hide SplittersDescend, GatesDescend;
    GatelessDescends(net, gps, splitter, virt, phys, regulator);
  }

  /** The pins of the tracker, with the screen switched on before there is a gate. */
  method ScreenFirst()
    returns (gps: GpioPin, virt: GpioPin, regulator: GpioPin, ghost splitter: GpioPin, ghost phys: GpioPin)
    ensures fresh({gps, virt, regulator, splitter, phys})
    ensures splitter.kind == Splitter && splitter.outPin1 == virt && splitter.outPin2 == phys
    ensures virt.kind == Virtual && gps.kind == Virtual && phys.kind == Hardware && regulator.kind == Hardware
    ensures phys != regulator && gps != virt && virt.level == On && gps.level == regulator.level == Unset
    ensures forall p :: p in {gps, virt, regulator, splitter, phys} ==> p.dependentPin == null
  {
    hide Shaped, SetEffect;
    gps := new GpioPin.Virt();
    virt := new GpioPin.Virt();
    var w := new GpioPin.Hw();
    var s := new GpioPin.Split(virt, w);
    regulator := new GpioPin.Hw();
    splitter, phys := s, w;
    ghost var net := Network({gps, virt, phys, splitter, regulator}, {}, map[],
                             map[regulator := 0, phys := 0, gps := 1, virt := 1, splitter := 2]);
    GatelessShaped(net, gps, splitter, virt, phys, regulator);
    ghost var before := LevelsOf(net);
    s.Set(true, net);
    ghost var after := LevelsOf(net);
    SplitterSetOn(net, before, after, gps, splitter, virt, phys, regulator);
    assert virt.level == after[virt] && gps.level == after[gps] && regulator.level == after[regulator];
  }

  /** The board's own order: the splitter is set before the Or is attached, and attaching does not update. The regulator is
      left unset although an input is on. */
  method TrackerPowerAttachedLate() returns (regulator: GpioPin, virt: GpioPin)
    ensures fresh(regulator) && fresh(virt)
    ensures virt.level == On && regulator.level == Unset
    ensures virt.dependentPin != null && virt.dependentPin.operation == Or && virt.dependentPin.outPin == regulator
  {
    var gps;
    ghost var splitter, phys;
    gps, virt, regulator, splitter, phys := ScreenFirst();
    var either := new GpioTransformer.Binary(gps, virt, regulator, Or);
  }

  /** The board's own order goes right with the first set of the GPS enable signal, whichever way it is set. */
  method TrackerCatchesUp(gpsOn: bool) returns (regulator: GpioPin)
    ensures fresh(regulator) && regulator.level == On
  {
    hide Shaped, SetEffect;
    var gps, virt;
    ghost var splitter, phys;
    gps, virt, regulator, splitter, phys := ScreenFirst();
    var either := new GpioTransformer.Binary(gps, virt, regulator, Or);
    ghost var net := Network({gps, virt, phys, splitter, regulator}, {either}, map[gps := either, virt := either],
                             map[regulator := 0, phys := 0, gps := 1, virt := 1, splitter := 2]);
    TrackerShaped(net, gps, splitter, virt, phys, regulator, either);
    ghost var before := LevelsOf(net);
    gps.Set(gpsOn, net);
    ghost var after := LevelsOf(net);
    GpsSetSettles(net, before, after, gps, splitter, virt, phys, regulator, either, gpsOn);
    assert regulator.level == after[regulator];
  }

  lemma SplitterSetOn(net: Network, before: Levels, after: Levels, gps: GpioPin, splitter: GpioPin, virt: GpioPin,
                      phys: GpioPin, regulator: GpioPin)
    requires splitter.kind == Splitter && splitter.outPin1 == virt && splitter.outPin2 == phys
    requires virt.kind == Virtual && gps.kind == Virtual && phys.kind == Hardware && gps != virt
    requires regulator.kind == Hardware && regulator != phys
    requires Shaped(net) && splitter in net.pins && gps in net.pins && regulator in net.pins && net.dep == map[]
    requires SetEffect(net, before, after, splitter, true)
    ensures virt in after && after[virt] == On
    ensures gps in before && regulator in before && after[gps] == before[gps] && after[regulator] == before[regulator]
  {
    assert Carries(net, after, virt, true);
    assert Cone(net, splitter) == {splitter} + Cone(net, virt) + Cone(net, phys);
  }

  lemma GpsSetSettles(net: Network, before: Levels, after: Levels, gps: GpioPin, splitter: GpioPin, virt: GpioPin,
                      phys: GpioPin, regulator: GpioPin, either: GpioTransformer, gpsOn: bool)
    requires IsTracker(net, gps, splitter, virt, phys, regulator, either) && Shaped(net)
    requires SetEffect(net, before, after, gps, gpsOn) && before[virt] == On && before[gps] == Unset
    ensures after[regulator] == On
  {
    hide SplittersDescend, GatesDescend, DependentsAgree, OneDriverEach, Settled, Cone, Tree;
    TrackerReach(net, gps, splitter, virt, phys, regulator, either);
    assert after[virt] == On;
    CarriesLevel(net, after, gps, gpsOn);
    assert InputChanged(net, before, after, either);
    FollowsOr(net, after, either, gpsOn, true);
  }
}
