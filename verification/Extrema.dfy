/**
 Choosing the extreme value of a line that may hold missing values.

 Cumulative extrema carry one current value; moving extrema carry a selection and, when missing values
 are omitted, the first missing value as a fallback.  The two rules are written separately in the
 original and are proved to choose the same value, for any comparison whatsoever.
 */
module Extrema {
  import opened Results

  datatype Ordering = Less | Equal | Greater

  datatype Extremum = Minimum | Maximum
  {
    predicate Prefers(o: Ordering) {
      match this
      case Minimum => o == Less
      case Maximum => o == Greater
    }
  }

  /** How values are judged: which are missing, how the others compare, which extreme is sought. */
  datatype Rules<!T> = Rules(missing: T -> bool, compare: (T, T) -> Ordering, extremum: Extremum, omit: bool)
  {
    predicate Better(v: T, current: T) {
      extremum.Prefers(compare(v, current))
    }
  }

  /** One step of a cumulative extremum. */
  function CumulativeStep<T>(r: Rules<T>, current: Option<T>, v: T): T {
    if current.None? then v
    else if !r.omit && r.missing(current.value) then current.value
    else if !r.omit && r.missing(v) then v
    else if r.omit && r.missing(v) then current.value
    else if r.missing(current.value) then v
    else if r.Better(v, current.value) then v
    else current.value
  }

  /** The cumulative extremum after a whole line. */
  function Cumulative<T>(r: Rules<T>, line: seq<T>): Option<T> {
    if line == [] then None
    else Some(CumulativeStep(r, Cumulative(r, line[..|line| - 1]), line[|line| - 1]))
  }

  /** The state of a moving extremum inside one window. */
  datatype Scan<T> = Scan(selected: Option<T>, fallback: Option<T>)
  {
    function Chosen(): Option<T> {
      if selected.Some? then selected else fallback
    }
  }

  /** One value considered by a moving extremum. */
  function Consider<T>(r: Rules<T>, s: Scan<T>, v: T): Scan<T> {
    if r.missing(v) then
      if r.omit then
        (if s.fallback.None? then s.(fallback := Some(v)) else s)
      else if s.selected.None? || !r.missing(s.selected.value) then
        s.(selected := Some(v))
      else s
    else if s.selected.None? || (!r.missing(s.selected.value) && r.Better(v, s.selected.value)) then
      s.(selected := Some(v))
    else s
  }

  function ConsiderAll<T>(r: Rules<T>, s: Scan<T>, values: seq<T>): Scan<T> {
    if values == [] then s else Consider(r, ConsiderAll(r, s, values[..|values| - 1]), values[|values| - 1])
  }

  /** Over the same values from the start, the two rules choose alike, missing values included. */
  lemma {:induction false} RulesAgree<T>(r: Rules<T>, line: seq<T>)
    ensures var s := ConsiderAll(r, Scan(None, None), line);
            && s.Chosen() == Cumulative(r, line)
            && (!r.omit ==> s.fallback == None)
            && (r.omit && s.selected.Some? ==> !r.missing(s.selected.value))
            && (s.selected.None? && s.fallback.Some? ==> r.missing(s.fallback.value))
  {
    if line != [] {
      RulesAgree(r, line[..|line| - 1]);
    }
  }

  /** A strict order of the values that are not missing. */
  ghost predicate StrictlyOrders<T(!new)>(r: Rules<T>, way: Ordering) {
    && (forall a :: !r.missing(a) ==> r.compare(a, a) != way)
    && forall a, b, c :: !r.missing(a) && !r.missing(b) && !r.missing(c) && r.compare(a, b) == way && r.compare(b, c) == way ==>
                         r.compare(a, c) == way
  }

  /** What is before another value is also before, or after, any third one: values on a par are so with the same ones. */
  ghost predicate Ranks<T(!new)>(r: Rules<T>, way: Ordering) {
    forall a, b, c :: !r.missing(a) && !r.missing(b) && !r.missing(c) && r.compare(a, b) == way ==>
                      r.compare(a, c) == way || r.compare(c, b) == way
  }

  /** The comparison orders the values that are not missing: downwards for a minimum, upwards for a maximum. */
  ghost predicate Orders<T(!new)>(r: Rules<T>) {
    match r.extremum
    case Minimum => StrictlyOrders(r, Less)
    case Maximum => StrictlyOrders(r, Greater)
  }

  ghost predicate OrdersAll<T(!new)>(r: Rules<T>) {
    && Orders(r)
    && match r.extremum
       case Minimum => Ranks(r, Less)
       case Maximum => Ranks(r, Greater)
  }

  /** `x` does not come below a minimum `v`, or above a maximum `v`. */
  ghost predicate IsBeyond<T>(r: Rules<T>, v: T, x: T) {
    match r.extremum
    case Minimum => r.compare(x, v) != Less
    case Maximum => r.compare(x, v) != Greater
  }

  /**
   An extreme value of a list: one of its values; a missing one exactly when a missing one is present and kept, or
   nothing else is; and otherwise a value that no present one comes below, or above.
   */
  ghost predicate IsExtremeOf<T>(r: Rules<T>, v: T, values: seq<T>) {
    && v in values
    && (r.missing(v) <==> if r.omit then forall x | x in values :: r.missing(x)
                          else exists x | x in values :: r.missing(x))
    && (!r.missing(v) ==> forall x | x in values && !r.missing(x) :: IsBeyond(r, v, x))
  }

  /** `v` is rightly chosen although `x` was there before. */
  ghost predicate Overtakes<T>(r: Rules<T>, v: T, x: T) {
    if r.missing(v) then !r.omit && !r.missing(x)
    else r.missing(x) || match r.extremum case Minimum => r.compare(v, x) == Less case Maximum => r.compare(v, x) == Greater
  }

  ghost predicate FirstAt<T>(r: Rules<T>, v: T, values: seq<T>, i: nat) {
    i < |values| && values[i] == v && forall k | 0 <= k < i :: Overtakes(r, v, values[k])
  }

  /** Of values on a par the first is chosen. */
  ghost predicate IsFirstOf<T>(r: Rules<T>, v: T, values: seq<T>) {
    exists i: nat :: FirstAt(r, v, values, i)
  }

  /** An extreme value if the comparison is an order, and the first of them if it ranks all values. */
  ghost predicate IsChosen<T(!new)>(r: Rules<T>, v: T, values: seq<T>) {
    && (Orders(r) ==> IsExtremeOf(r, v, values))
    && (OrdersAll(r) ==> IsFirstOf(r, v, values))
  }

  /** What is chosen. */
  lemma ChosenIsExtreme<T(!new)>(r: Rules<T>, line: seq<T>)
    requires line != []
    ensures Cumulative(r, line).Some? && IsChosen(r, Cumulative(r, line).value, line)
  {
    if Orders(r) {
      ChosenIsBest(r, line);
    }
    if OrdersAll(r) {
      var i := ChosenIsFirst(r, line);
    }
  }

  lemma {:induction false} ChosenIsBest<T(!new)>(r: Rules<T>, line: seq<T>)
    requires line != [] && Orders(r)
    ensures IsExtremeOf(r, Cumulative(r, line).value, line)
  {
    var n := |line| - 1;
    assert line == line[..n] + [line[n]];
    assert forall x :: x in line <==> x in line[..n] || x == line[n];
    if n > 0 {
      ChosenIsBest(r, line[..n]);
    }
  }

  lemma {:induction false} ChosenIsFirst<T(!new)>(r: Rules<T>, line: seq<T>) returns (i: nat)
    requires line != [] && OrdersAll(r)
    ensures FirstAt(r, Cumulative(r, line).value, line, i)
  {
    var n := |line| - 1;
    i := n;
    if n > 0 {
      var k := ChosenIsFirst(r, line[..n]);
      ChosenIsBest(r, line[..n]);
      var before, after := Cumulative(r, line[..n]).value, Cumulative(r, line).value;
      if after == before {
        i := k;
      } else {
        forall j | 0 <= j < n ensures Overtakes(r, after, line[j]) {
          assert line[j] == line[..n][j] && line[j] in line[..n];
        }
      }
    }
  }
}
