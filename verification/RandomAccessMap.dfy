/** A deque of shared elements and an index by key that always agree (observed_random_access_map.hpp). */
module RandomAccessMap {
  import opened Wrappers

  datatype Error = KeyExists | KeyMissing | ElementMissing

  /** An element is an object of its own: several containers may share it, and moving it keeps it. */
  class Element<K, V> {
    const key: K
    var value: V

    constructor (key: K, value: V)
      ensures this.key == key && this.value == value
    {
      this.key, this.value := key, value;
    }
  }

  datatype View<K(==), V> = View(deque: seq<Element<K, V>>, index: map<K, Element<K, V>>)

  /** Deque and index hold the same elements, each once and by its own key. */
  ghost predicate Agrees<K, V>(view: View<K, V>) {
    && (forall i, j | 0 <= i < j < |view.deque| :: view.deque[i].key != view.deque[j].key)
    && (forall i | 0 <= i < |view.deque| ::
       view.deque[i].key in view.index && view.index[view.deque[i].key] == view.deque[i])
    && (forall key | key in view.index :: view.index[key] in view.deque && view.index[key].key == key)
  }

  // ---------- what the operations do ----------

  function Without<T>(s: seq<T>, at: nat): seq<T>
    requires at < |s|
  {
    s[..at] + s[at + 1..]
  }

  function Inserted<K, V>(view: View<K, V>, key: K, element: Element<K, V>): View<K, V> {
    View(view.deque + [element], view.index[key := element])
  }

  function Erased<K, V>(view: View<K, V>, at: nat): View<K, V>
    requires at < |view.deque|
  {
    View(Without(view.deque, at), view.index - {view.deque[at].key})
  }

  ghost function KeysOf<K, V>(elements: seq<Element<K, V>>): set<K> {
    set i | 0 <= i < |elements| :: elements[i].key
  }

  ghost function WithoutFront<K, V>(view: View<K, V>, n: nat): View<K, V>
    requires n <= |view.deque|
  {
    View(view.deque[n..], view.index - KeysOf(view.deque[..n]))
  }

  function Clamped(index: nat, size: nat): nat
    requires size > 0
  {
    if index >= size then size - 1 else index
  }

  function Moved<T>(s: seq<T>, from: nat, to: nat): (moved: seq<T>)
    requires from < |s| && to < |s|
    ensures |moved| == |s|
  {
    var rest := Without(s, from);
    rest[..to] + [s[from]] + rest[to..]
  }

  /** The first place of an element, the size when it has none. */
  function FirstAt<T(==)>(s: seq<T>, element: T): (at: nat)
    ensures at <= |s| && (forall i | 0 <= i < at :: s[i] != element)
    ensures at < |s| ==> s[at] == element
  {
    if s == [] || s[0] == element then 0 else 1 + FirstAt(s[1..], element)
  }

  datatype Operation<K, V> =
    | Inserting(key: K, element: Element<K, V>)
    | PoppingBack
    | PoppingFront
    | ExtractingFront(count: nat)
    | Erasing(key: K)
    | Moving(key: K, newIndex: nat)
    | Clearing

  /** What an operation leaves of any deque and index, whether they agree or not. */
  ghost function Next<K, V>(view: View<K, V>, operation: Operation<K, V>): View<K, V> {
    var size := |view.deque|;
    match operation
    case Inserting(key, element) => if key in view.index then view else Inserted(view, key, element)
    case PoppingBack => if size == 0 then view else Erased(view, size - 1)
    case PoppingFront => if size == 0 then view else Erased(view, 0)
    case ExtractingFront(count) => WithoutFront(view, if count > size then size else count)
    case Erasing(key) =>
      if key !in view.index then view
      else
        var at := FirstAt(view.deque, view.index[key]);
        View(if at < size then Without(view.deque, at) else view.deque, view.index - {key})
    case Moving(key, newIndex) =>
      if key !in view.index then view
      else
        var at := FirstAt(view.deque, view.index[key]);
        if at < size then View(Moved(view.deque, at, Clamped(newIndex, size)), view.index) else view
    case Clearing => View([], map[])
  }

  /** Where the element of a key is. */
  ghost function PositionOf<K, V>(view: View<K, V>, key: K): (at: nat)
    requires Agrees(view) && key in view.index
    ensures at < |view.deque| && view.deque[at] == view.index[key] && view.deque[at].key == key
  {
    assert view.index[key] in view.deque;
    var at :| 0 <= at < |view.deque| && view.deque[at] == view.index[key];
    at
  }

  // ---------- the operations keep deque and index together ----------

  /** An insert of a new key keeps the agreement exactly when the element carries that key itself. */
  lemma InsertKeepsAgreementIffKeysMatch<K, V>(view: View<K, V>, key: K, element: Element<K, V>)
    requires Agrees(view) && key !in view.index && element !in view.deque
    ensures Agrees(Inserted(view, key, element)) <==> element.key == key
  {
    var after := Inserted(view, key, element);
    assert after.deque[|view.deque|] == element;
    assert Agrees(after) ==> after.index[element.key] == element;
    assert element.key in view.index ==> view.index[element.key] in view.deque;
    if element.key == key {
      forall i, j | 0 <= i < j < |after.deque| ensures after.deque[i].key != after.deque[j].key {
        assert after.deque[i] == view.deque[i];
      }
      forall k | k in after.index ensures after.index[k] in after.deque && after.index[k].key == k {
        assert k != key ==> view.index[k] in view.deque;
        assert element in after.deque;
      }
    }
  }

  lemma EraseKeepsAgreement<K, V>(view: View<K, V>, at: nat)
    requires Agrees(view) && at < |view.deque|
    ensures Agrees(Erased(view, at))
  {
    var after := Erased(view, at);
    forall key | key in after.index ensures after.index[key] in after.deque {
      OthersStay(view.deque, at, PositionOf(view, key));
    }
    forall i | 0 <= i < |after.deque| ensures after.deque[i] == view.deque[if i < at then i else i + 1] {
      WithoutAt(view.deque, at, i);
    }
    hide Without;
  }

  lemma WithoutAt<T>(s: seq<T>, at: nat, i: nat)
    requires at < |s| && i < |s| - 1
    ensures |Without(s, at)| == |s| - 1 && Without(s, at)[i] == s[if i < at then i else i + 1]
  {
  }

  lemma OthersStay<T>(s: seq<T>, at: nat, i: nat)
    requires at < |s| && i < |s|
    ensures i != at ==> s[i] in Without(s, at)
  {
    assert i != at ==> Without(s, at)[if i < at then i else i - 1] == s[i];
  }

  lemma AmongTheFirst<K, V>(elements: seq<Element<K, V>>, n: nat, i: nat)
    requires n <= |elements| && i < |elements|
    ensures i < n ==> elements[i].key in KeysOf(elements[..n])
  {
    if i < n {
      assert elements[..n][i] == elements[i];
    }
  }

  lemma NoKeys<K, V>(elements: seq<Element<K, V>>)
    ensures KeysOf(elements[..0]) == {}
  {
  }

  lemma OneKeyMore<K, V>(elements: seq<Element<K, V>>, n: nat)
    requires n < |elements|
    ensures KeysOf(elements[..n + 1]) == KeysOf(elements[..n]) + {elements[n].key}
  {
    assert forall k | 0 <= k < n :: elements[..n][k] == elements[..n + 1][k];
    assert elements[..n + 1][n] == elements[n];
  }

  lemma FrontKeepsAgreement<K, V>(view: View<K, V>, n: nat)
    requires Agrees(view) && n <= |view.deque|
    ensures Agrees(WithoutFront(view, n))
  {
    var after := WithoutFront(view, n);
    forall key | key in after.index ensures after.index[key] in after.deque {
      var i := PositionOf(view, key);
      AmongTheFirst(view.deque, n, i);
      assert after.deque[i - n] == view.deque[i];
    }
    forall i | 0 <= i < |after.deque| ensures after.deque[i].key in after.index {
      assert after.deque[i] == view.deque[i + n];
    }
  }

  // ---------- moving ----------

  /** Where the element at a place was before the move; with its ends swapped, where it goes. */
  function CameFrom(from: nat, to: nat, place: nat): nat {
    if place == to then from
    else if from < to && from <= place < to then place + 1
    else if to < place <= from then place - 1
    else place
  }

  lemma MovedAt<T>(s: seq<T>, from: nat, to: nat, place: nat)
    requires from < |s| && to < |s| && place < |s|
    ensures CameFrom(from, to, place) < |s| && Moved(s, from, to)[place] == s[CameFrom(from, to, place)]
  {
    if place != to {
      WithoutAt(s, from, if place < to then place else place - 1);
    }
    hide Without;
  }

  lemma CameFromIsInjective(from: nat, to: nat, place: nat)
    ensures CameFrom(from, to, CameFrom(to, from, place)) == place
  {
  }

  lemma MoveKeepsAgreement<K, V>(view: View<K, V>, from: nat, to: nat)
    requires Agrees(view) && from < |view.deque| && to < |view.deque|
    ensures Agrees(View(Moved(view.deque, from, to), view.index))
  {
    hide Moved, CameFrom;
    var moved := Moved(view.deque, from, to);
    forall i, j | 0 <= i < j < |moved| ensures moved[i].key != moved[j].key {
      MovedAt(view.deque, from, to, i);
      MovedAt(view.deque, from, to, j);
      CameFromIsInjective(to, from, i);
      CameFromIsInjective(to, from, j);
    }
    forall i | 0 <= i < |moved| ensures moved[i].key in view.index && view.index[moved[i].key] == moved[i] {
      MovedAt(view.deque, from, to, i);
    }
    forall key | key in view.index ensures view.index[key] in moved {
      var i := PositionOf(view, key);
      var place := GoesTo(view.deque, from, to, i);
      assert moved[place] == view.deque[i];
    }
  }

  lemma GoesTo<T>(s: seq<T>, from: nat, to: nat, i: nat) returns (place: nat)
    requires from < |s| && to < |s| && i < |s|
    ensures place < |s| && Moved(s, from, to)[place] == s[i]
  {
    place := CameFrom(to, from, i);
    MovedAt(s, from, to, place);
  }

  /** A move puts the element at its place and leaves all others in their order; no other sequence does. */
  lemma MoveMeans<T>(s: seq<T>, from: nat, to: nat, other: seq<T>)
    requires from < |s| && to < |s|
    ensures Moved(s, from, to)[to] == s[from]
    ensures Without(Moved(s, from, to), to) == Without(s, from)
    ensures |other| == |s| && other[to] == s[from] && Without(other, to) == Without(s, from) ==>
            other == Moved(s, from, to)
  {
    var rest := Without(s, from);
    var moved := Moved(s, from, to);
    assert moved[..to] == rest[..to] && moved[to + 1..] == rest[to..];
    if |other| == |s| && other[to] == s[from] && Without(other, to) == rest {
      assert other[..to] == rest[..to] && other[to + 1..] == rest[to..];
      assert other == other[..to] + [other[to]] + other[to + 1..];
    }
  }

  lemma TakenOutAndPutBack<T>(s: seq<T>, from: nat, to: nat)
    requires from < |s| && to < |s|
    ensures var rest := s[..from] + s[from + 1..]; Moved(s, from, to) == rest[..to] + [s[from]] + rest[to..]
    ensures from == to ==> Moved(s, from, to) == s
  {
  }

  /** Moving back undoes a move. */
  lemma MovesUndo<T>(s: seq<T>, from: nat, to: nat)
    requires from < |s| && to < |s|
    ensures Moved(Moved(s, from, to), to, from) == s
  {
    MoveMeans(s, from, to, s);
    MoveMeans(Moved(s, from, to), to, from, s);
  }

  // ---------- what each operation means ----------

  /** Where an element goes that is moved to a place; the last place when that is beyond. */
  function PlaceFor(newIndex: nat, size: nat): (place: nat) {
    if newIndex < size then newIndex else if size == 0 then 0 else size - 1
  }

  /**
   What each operation does to the order of the elements: inserting appends, popping and extracting take from the ends
   and leave the rest, erasing takes the element of the key out of its place, and moving puts it where it was to go.
   */
  lemma OperationsMean<K, V>(view: View<K, V>, operation: Operation<K, V>)
    requires Agrees(view)
    ensures var after, size := Next(view, operation), |view.deque|;
            match operation
            case Inserting(key, element) =>
              if key in view.index then after == view
              else
                && after.deque == view.deque + [element] && key in after.index && after.index[key] == element
                && forall other | other in view.index :: other in after.index && after.index[other] == view.index[other]
            case PoppingBack =>
              if size == 0 then after == view else after.deque + [view.deque[size - 1]] == view.deque
            case PoppingFront =>
              if size == 0 then after == view else [view.deque[0]] + after.deque == view.deque
            case ExtractingFront(count) =>
              && |after.deque| == (if count < size then size - count else 0)
              && view.deque[size - |after.deque|..] == after.deque
            case Erasing(key) =>
              if key !in view.index then after == view
              else
                && |after.deque| == size - 1
                && exists at | 0 <= at < size :: && view.deque[at].key == key
                                                 && after.deque == view.deque[..at] + view.deque[at + 1..]
            case Moving(key, newIndex) =>
              if key !in view.index then after == view
              else
                && after.index == view.index && |after.deque| == size > 0
                && after.deque[PlaceFor(newIndex, size)].key == key
                && exists at | 0 <= at < size ::
                     && view.deque[at] == after.deque[PlaceFor(newIndex, size)]
                     && view.deque[..at] + view.deque[at + 1..] ==
                        after.deque[..PlaceFor(newIndex, size)] + after.deque[PlaceFor(newIndex, size) + 1..]
            case Clearing => after.deque == [] && forall key :: key !in after.index
  {
    hide Agrees, Moved, FirstAt, KeysOf;
    match operation
    case Inserting(key, element) =>
    case PoppingBack => PoppingMeans(view);
    case PoppingFront => PoppingMeans(view);
    case ExtractingFront(count) =>
    case Erasing(key) =>
      if key in view.index {
        KeysAreFound(view, key);
      }
    case Moving(key, newIndex) =>
      if key in view.index {
        MovingMeans(view, key, newIndex);
      }
    case Clearing =>
  }

  lemma PoppingMeans<K, V>(view: View<K, V>)
    ensures var size := |view.deque|;
            size > 0 ==>
              && Next(view, PoppingBack).deque + [view.deque[size - 1]] == view.deque
              && [view.deque[0]] + Next(view, PoppingFront).deque == view.deque
  {
  }

  lemma MovingMeans<K, V>(view: View<K, V>, key: K, newIndex: nat)
    requires Agrees(view) && key in view.index
    ensures var after, size := Next(view, Moving(key, newIndex)), |view.deque|;
            && after.index == view.index && |after.deque| == size > 0
            && after.deque[PlaceFor(newIndex, size)].key == key
            && exists at | 0 <= at < size ::
                 && view.deque[at] == after.deque[PlaceFor(newIndex, size)]
                 && view.deque[..at] + view.deque[at + 1..] ==
                    after.deque[..PlaceFor(newIndex, size)] + after.deque[PlaceFor(newIndex, size) + 1..]
  {
    KeysAreFound(view, key);
    var at := PositionOf(view, key);
    var to := PlaceFor(newIndex, |view.deque|);
    hide Agrees, FirstAt, Moved;
    assert Next(view, Moving(key, newIndex)) == View(Moved(view.deque, at, to), view.index);
    MovedTo(view.deque, at, to);
  }

  lemma MovedTo<T>(s: seq<T>, from: nat, to: nat)
    requires from < |s| && to < |s|
    ensures var moved := Moved(s, from, to);
            && moved[to] == s[from] && s[..from] + s[from + 1..] == moved[..to] + moved[to + 1..]
  {
    MoveMeans(s, from, to, s);
    hide Moved;
  }

  /** What was put in last comes out at the back, and leaves deque and index as they were. */
  lemma PoppingUndoesInserting<K, V>(view: View<K, V>, key: K, element: Element<K, V>)
    requires Agrees(view) && key !in view.index && element.key == key
    ensures Next(Next(view, Inserting(key, element)), PoppingBack) == view
  {
    var after := Next(view, Inserting(key, element));
    assert Without(after.deque, |view.deque|) == view.deque;
    assert after.index - {key} == view.index;
  }

  // ---------- runs ----------

  ghost function After<K, V>(start: View<K, V>, operations: seq<Operation<K, V>>): View<K, V> {
    if operations == [] then start
    else Next(After(start, operations[..|operations| - 1]), operations[|operations| - 1])
  }

  /** An accepted insert is by the key that its element carries. */
  ghost predicate InsertsByItsOwnKey<K, V>(view: View<K, V>, operation: Operation<K, V>) {
    operation.Inserting? && operation.key !in view.index ==> operation.element.key == operation.key
  }

  /** Every insert makes an element of its own. */
  ghost predicate InsertsANewElement<K, V>(view: View<K, V>, operation: Operation<K, V>) {
    operation.Inserting? ==> operation.element !in view.deque
  }

  lemma StepsAgreeIffKeysMatch<K, V>(view: View<K, V>, operation: Operation<K, V>)
    requires Agrees(view) && InsertsANewElement(view, operation)
    ensures Agrees(Next(view, operation)) <==> InsertsByItsOwnKey(view, operation)
  {
    hide Agrees, Moved, WithoutFront, Without, FirstAt;
    match operation
    case Inserting(key, element) =>
      if key !in view.index { InsertKeepsAgreementIffKeysMatch(view, key, element); }
    case PoppingBack => if view.deque != [] { EraseKeepsAgreement(view, |view.deque| - 1); }
    case PoppingFront => if view.deque != [] { EraseKeepsAgreement(view, 0); }
    case ExtractingFront(count) =>
      FrontKeepsAgreement(view, if count > |view.deque| then |view.deque| else count);
    case Erasing(key) =>
      if key in view.index {
        KeysAreFound(view, key);
        EraseKeepsAgreement(view, FirstAt(view.deque, view.index[key]));
      }
    case Moving(key, newIndex) =>
      if key in view.index {
        KeysAreFound(view, key);
        MoveKeepsAgreement(view, FirstAt(view.deque, view.index[key]), Clamped(newIndex, |view.deque|));
      }
    case Clearing => EmptyViewsAgree(Next(view, operation));
  }

  lemma EmptyViewsAgree<K, V>(view: View<K, V>)
    requires view == View([], map[])
    ensures Agrees(view)
  {
  }

  lemma KeysAreFound<K, V>(view: View<K, V>, key: K)
    requires Agrees(view) && key in view.index
    ensures FirstAt(view.deque, view.index[key]) == PositionOf(view, key)
  {
  }

  ghost predicate AgreesThroughout<K, V>(start: View<K, V>, operations: seq<Operation<K, V>>) {
    forall n | 0 <= n <= |operations| :: Agrees(After(start, operations[..n]))
  }

  ghost predicate KeysMatchThroughout<K, V>(start: View<K, V>, operations: seq<Operation<K, V>>) {
    forall n | 0 <= n < |operations| :: InsertsByItsOwnKey(After(start, operations[..n]), operations[n])
  }

  ghost predicate MakesNewElements<K, V>(start: View<K, V>, operations: seq<Operation<K, V>>) {
    forall n | 0 <= n < |operations| :: InsertsANewElement(After(start, operations[..n]), operations[n])
  }

  /** Erasing takes the element of the key out of the deque, and only what carries the key. */
  lemma ErasedKeysAreGone<K, V>(view: View<K, V>, key: K)
    requires Agrees(view)
    ensures key in view.index ==> view.index[key] in view.deque
    ensures forall element :: element in Next(view, Erasing(key)).deque <==> element in view.deque && element.key != key
  {
    if key in view.index {
      KeysAreFound(view, key);
      var at := PositionOf(view, key);
      forall i: nat | i < |view.deque| && view.deque[i].key != key ensures view.deque[i] in Without(view.deque, at) {
        OthersStay(view.deque, at, i);
      }
      assert forall element | element in Without(view.deque, at) :: element in view.deque && element.key != key;
      hide Agrees, Without, FirstAt;
    }
  }

  /**
   Deque and index agree all through a run exactly when every accepted insert is by its element's own key, whatever
   else is popped, extracted, erased, moved or cleared in between.
   */
  lemma {:induction false} EveryRunAgreesIffKeysMatch<K, V>(start: View<K, V>, operations: seq<Operation<K, V>>)
    requires Agrees(start) && MakesNewElements(start, operations)
    ensures AgreesThroughout(start, operations) <==> KeysMatchThroughout(start, operations)
  {
    hide Agrees, Next, InsertsByItsOwnKey, InsertsANewElement;
    if operations != [] {
      var last := |operations| - 1;
      var before := operations[..last];
      OneOperationMore(start, operations);
      hide AgreesThroughout, KeysMatchThroughout, MakesNewElements;
      EveryRunAgreesIffKeysMatch(start, before);
      if AgreesThroughout(start, before) {
        StepsAgreeIffKeysMatch(After(start, before), operations[last]);
      }
    }
  }

  lemma OneOperationMore<K, V>(start: View<K, V>, operations: seq<Operation<K, V>>)
    requires operations != []
    ensures var last := |operations| - 1;
            var before := operations[..last];
            && (AgreesThroughout(start, operations) <==>
                  AgreesThroughout(start, before) && Agrees(After(start, operations)))
            && (AgreesThroughout(start, before) ==> Agrees(After(start, before)))
            && (KeysMatchThroughout(start, operations) <==>
                  KeysMatchThroughout(start, before) && InsertsByItsOwnKey(After(start, before), operations[last]))
            && (MakesNewElements(start, operations) <==>
                  MakesNewElements(start, before) && InsertsANewElement(After(start, before), operations[last]))
  {
    hide Agrees, Next, InsertsByItsOwnKey, InsertsANewElement, After;
    var last := |operations| - 1;
    var before := operations[..last];
    assert before[..last] == before && operations[..last + 1] == operations;
    assert forall n | 0 <= n <= last :: before[..n] == operations[..n];
    assert forall n | 0 <= n < last :: before[n] == operations[n];
    assert AgreesThroughout(start, operations) ==> Agrees(After(start, operations[..last + 1]));
    assert AgreesThroughout(start, operations) ==> AgreesThroughout(start, before);
    assert AgreesThroughout(start, before) ==> Agrees(After(start, before[..last]));
    forall n | 0 <= n <= last + 1 && AgreesThroughout(start, before) && Agrees(After(start, operations))
      ensures Agrees(After(start, operations[..n]))
    {
      assert n <= last ==> Agrees(After(start, before[..n]));
    }
  }

  // ---------- the map ----------

  class ObservedRandomAccessMap<K(==), V> {
    var deque: seq<Element<K, V>>
    var index: map<K, Element<K, V>>

    ghost function Contents(): View<K, V>
      reads this
    {
      View(deque, index)
    }

    ghost predicate Valid()
      reads this
    {
      Agrees(Contents())
    }

    constructor ()
      ensures Valid() && Contents() == View([], map[])
    {
      deque, index := [], map[];
    }

    /** Refuses a key that is there; the value's own key need not be the key it is inserted by. */
    method Insert(key: K, ownKey: K, value: V) returns (error: Option<Error>)
      modifies this
      ensures error == if key in old(index) then Some(KeyExists) else None
      ensures error.Some? ==> Contents() == old(Contents())
      ensures error.None? ==>
                && |deque| > 0 && fresh(deque[|deque| - 1])
                && deque[|deque| - 1].key == ownKey && deque[|deque| - 1].value == value
                && Contents() == Next(old(Contents()), Inserting(key, deque[|deque| - 1]))
      ensures old(Valid()) ==> (Valid() <==> error.Some? || ownKey == key)
    {
      if key in index {
        return Some(KeyExists);
      }
      var element := new Element(ownKey, value);
      if Valid() {
        StepsAgreeIffKeysMatch(Contents(), Inserting(key, element));
      }
      deque := deque + [element];
      index := index[key := element];
      error := None;
    }

    method PopBack()
      modifies this
      ensures Contents() == Next(old(Contents()), PoppingBack)
      ensures old(Valid()) ==> Valid()
    {
      if deque == [] {
        return;
      }
      if Valid() {
        StepsAgreeIffKeysMatch(Contents(), PoppingBack);
      }
      assert Without(deque, |deque| - 1) == deque[..|deque| - 1];
      index := index - {deque[|deque| - 1].key};
      deque := deque[..|deque| - 1];
    }

    method PopFront()
      modifies this
      ensures Contents() == Next(old(Contents()), PoppingFront)
      ensures old(Valid()) ==> Valid()
    {
      if deque == [] {
        return;
      }
      if Valid() {
        StepsAgreeIffKeysMatch(Contents(), PoppingFront);
      }
      assert Without(deque, 0) == deque[1..];
      index := index - {deque[0].key};
      deque := deque[1..];
    }

    /** Takes out the first elements, all of them when there are fewer. */
    method ExtractFrontN(count: nat) returns (extracted: seq<Element<K, V>>)
      modifies this
      ensures |extracted| == if count > |old(deque)| then |old(deque)| else count
      ensures Contents() == Next(old(Contents()), ExtractingFront(count)) && extracted + deque == old(deque)
      ensures old(Valid()) ==> Valid()
    {
      hide Agrees, KeysOf;
      var n := if count > |deque| then |deque| else count;
      NoKeys(deque);
      if Valid() {
        StepsAgreeIffKeysMatch(Contents(), ExtractingFront(count));
      }
      extracted := [];
      for i := 0 to n
        invariant deque == old(deque) && extracted == deque[..i]
        invariant index == old(index) - KeysOf(deque[..i])
      {
        OneKeyMore(deque, i);
        index := index - {deque[i].key};
        extracted := extracted + [deque[i]];
      }
      deque := deque[n..];
    }

    /** The place of an object in the deque, its size when the object is not there. */
    method Search(element: Element<K, V>) returns (at: nat)
      ensures at == FirstAt(deque, element)
    {
      at := 0;
      while at < |deque| && deque[at] != element
        invariant at <= |deque| && forall i | 0 <= i < at :: deque[i] != element
      {
        at := at + 1;
      }
    }

    /** Forgets the key, and takes its element out of the deque, where it is unless they have come to disagree. */
    method Erase(key: K) returns (error: Option<Error>)
      modifies this
      ensures Contents() == Next(old(Contents()), Erasing(key))
      ensures error == if key !in old(index) then Some(KeyMissing)
                       else if old(index)[key] !in old(deque) then Some(ElementMissing)
                       else None
      ensures old(Valid()) ==>
                && Valid() && error != Some(ElementMissing)
                && forall element :: element in deque <==> element in old(deque) && element.key != key
    {
      if Valid() {
        StepsAgreeIffKeysMatch(Contents(), Erasing(key));
        ErasedKeysAreGone(Contents(), key);
      }
      hide Agrees;
      if key !in index {
        return Some(KeyMissing);
      }
      var at := Search(index[key]);
      index := index - {key};
      if at == |deque| {
        return Some(ElementMissing);
      }
      deque := deque[..at] + deque[at + 1..];
      error := None;
    }

    /** Moves the element of a key to a place, the last one when that is beyond it; nothing for an unknown key. */
    method Move(key: K, newIndex: nat)
      modifies this
      ensures Contents() == Next(old(Contents()), Moving(key, newIndex))
      ensures old(Valid()) ==> Valid()
    {
      if Valid() {
        StepsAgreeIffKeysMatch(Contents(), Moving(key, newIndex));
      }
      hide Agrees, CameFrom, Moved, Without;
      if key !in index || deque == [] {
        return;
      }
      var from := Search(index[key]);
      if from == |deque| {
        return;
      }
      var to := if newIndex >= |deque| then |deque| - 1 else newIndex;
      TakenOutAndPutBack(deque, from, to);
      if from == to {
        return;
      }
      var entry := deque[from];
      deque := deque[..from] + deque[from + 1..];
      deque := deque[..to] + [entry] + deque[to..];
    }

    /** The element of the deque that carries a key; nothing when none does. */
    method At(key: K) returns (element: Option<Element<K, V>>)
      requires Valid()
      ensures element.Some? ==> element.value in deque && element.value.key == key
      ensures element.None? ==> forall i | 0 <= i < |deque| :: deque[i].key != key
    {
      element := if key in index then Some(index[key]) else None;
    }

    /** The element of a key out of the deque. */
    method Shared(key: K) returns (element: Option<Element<K, V>>)
      ensures element == if key in index && index[key] in deque then Some(index[key]) else None
      ensures Valid() ==> (element.Some? <==> key in index)
    {
      if key !in index {
        return None;
      }
      var at := Search(index[key]);
      element := if at < |deque| then Some(deque[at]) else None;
    }

    /** Where the element of a key is, the end of the deque for an unknown one. */
    method Find(key: K) returns (at: nat)
      ensures at == if key in index then FirstAt(deque, index[key]) else |deque|
      ensures Valid() && key in index ==> at == PositionOf(Contents(), key)
    {
      if key !in index {
        return |deque|;
      }
      at := Search(index[key]);
      if Valid() {
        KeysAreFound(Contents(), key);
      }
    }

    /** Changes the value of a key; the element stays the same object in the same place. */
    method Modify(key: K, modifier: V -> V) returns (error: Option<Error>)
      modifies if key in index then {index[key]} else {}
      ensures Contents() == old(Contents())
      ensures error == if key in index then None else Some(KeyMissing)
      ensures key in index ==> index[key].value == modifier(old(index[key].value))
    {
      if key !in index {
        return Some(KeyMissing);
      }
      index[key].value := modifier(index[key].value);
      error := None;
    }

    /** The first element, found under its own key as well; nothing exactly when no key is known. */
    method Front() returns (element: Option<Element<K, V>>)
      requires Valid()
      ensures element.None? <==> index == map[]
      ensures element.Some? ==>
                && |deque| > 0 && element.value == deque[0]
                && element.value.key in index && index[element.value.key] == element.value
    {
      assert index != map[] ==> exists key :: key in index;
      element := if deque == [] then None else Some(deque[0]);
    }

    method Clear()
      modifies this
      ensures Valid() && Contents() == Next(old(Contents()), Clearing)
    {
      deque, index := [], map[];
    }
  }
}
