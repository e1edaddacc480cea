/** The board's pure list and display helpers: reordering a list, moving
    an element between two lists, initials from a name, and the CSS classes
    for a priority. */
module TaskUtils {
  import opened Wrappers
  import opened JsArray

  /** A JavaScript array whose slots may hold `undefined` (`None`). */
  function Lift<T>(s: seq<T>): (r: seq<Option<T>>)
    ensures |r| == |s| && forall i :: 0 <= i < |s| ==> r[i] == Some(s[i])
  {
    seq(|s|, i requires 0 <= i < |s| => Some(s[i]))
  }

  lemma LiftAppend<T>(a: seq<T>, b: seq<T>)
    ensures Lift(a + b) == Lift(a) + Lift(b)
  {
  }

  /** Lifting commutes with taking out one element and counting. */
  lemma {:induction false} LiftRemoveAt<T>(a: seq<T>, k: nat)
    requires k < |a|
    ensures multiset(Lift(RemoveAt(a, k).0)) + multiset{Some(a[k])} == multiset(Lift(a))
  {
    var p, x, q := a[..k], a[k], a[k + 1..];
    assert a == p + [x] + q;
    assert RemoveAt(a, k).0 == p + q;
    LiftAppend(p, q);
    LiftAppend(p + [x], q);
    LiftAppend(p, [x]);
    assert Lift([x]) == [Some(x)];
    calc {
      multiset(Lift(a));
      multiset(Lift(p) + [Some(x)] + Lift(q));
      multiset(Lift(p)) + multiset{Some(x)} + multiset(Lift(q));
      multiset(Lift(p + q)) + multiset{Some(x)};
    }
  }

  /** `reorderTasks`: on a copy, `[removed] = splice(startIndex, 1)` and
      then `splice(endIndex, 0, removed)`. When nothing is removed,
      `removed` is `undefined` and that is what gets inserted. */
  function ReorderTasks<T>(tasks: seq<T>, startIndex: int, endIndex: int): (r: seq<Option<T>>)
    ensures var k := SpliceStart(startIndex, |tasks|);
      && |r| == (if k < |tasks| then |tasks| else |tasks| + 1)
      && r[SpliceStart(endIndex, |r| - 1)] == (if k < |tasks| then Some(tasks[k]) else None)
  {
    var (rest, removed) := RemoveAt(tasks, startIndex);
    Insert(Lift(rest), endIndex, removed)
  }

  /** For a start index inside the list, the result has the same length,
      holds no `undefined`, and is a permutation of the input. */
  lemma ReorderTasksPermutes<T>(tasks: seq<T>, startIndex: int, endIndex: int)
    requires 0 <= startIndex < |tasks|
    ensures var r := ReorderTasks(tasks, startIndex, endIndex);
      && |r| == |tasks|
      && (forall i :: 0 <= i < |r| ==> r[i].Some?)
      && multiset(r) == multiset(Lift(tasks))
  {
    var r := ReorderTasks(tasks, startIndex, endIndex);
    var rest := RemoveAt(tasks, startIndex).0;
    LiftRemoveAt(tasks, startIndex);
    forall i | 0 <= i < |r| ensures r[i].Some? {
      var k := SpliceStart(endIndex, |rest|);
      if i < k {
        assert r[i] == Lift(rest)[i];
      } else if i > k {
        assert r[i] == Lift(rest)[i - 1];
      }
    }
  }

  /** For in-range indices the element taken from `startIndex` lands at
      `endIndex`, the others keep their relative order, and equal indices
      give back the input. */
  lemma ReorderTasksMoves<T>(tasks: seq<T>, startIndex: int, endIndex: int)
    requires 0 <= startIndex < |tasks| && 0 <= endIndex < |tasks|
    ensures var r := ReorderTasks(tasks, startIndex, endIndex);
      && r[endIndex] == Some(tasks[startIndex])
      && (forall j :: 0 <= j < endIndex ==> r[j] == Lift(RemoveAt(tasks, startIndex).0)[j])
      && (forall j :: endIndex < j < |r| ==> r[j] == Lift(RemoveAt(tasks, startIndex).0)[j - 1])
      && (startIndex == endIndex ==> r == Lift(tasks))
  {
    var r := ReorderTasks(tasks, startIndex, endIndex);
    if startIndex == endIndex {
      forall j | 0 <= j < |r| ensures r[j] == Lift(tasks)[j] {
      }
    }
  }

  /** For a start index past the end, nothing is removed and `undefined`
      is inserted at the end index: the result is one longer. */
  lemma ReorderTasksOutOfRange<T>(tasks: seq<T>, startIndex: int, endIndex: int)
    requires startIndex >= |tasks|
    ensures var r := ReorderTasks(tasks, startIndex, endIndex);
      && |r| == |tasks| + 1
      && r[SpliceStart(endIndex, |tasks|)] == None
      && multiset(r) == multiset(Lift(tasks)) + multiset{None}
  {
  }

  /** The two lists `moveTaskBetweenColumns` returns. */
  datatype MovedLists<T> = MovedLists(source: seq<T>, destination: seq<Option<T>>)

  /** `moveTaskBetweenColumns`: on copies, `[removed] = source.splice(
      sourceIndex, 1)` and `destination.splice(destIndex, 0, removed)`. */
  function MoveTaskBetweenColumns<T>(sourceColumn: seq<T>, destColumn: seq<T>, sourceIndex: int, destIndex: int): (r: MovedLists<T>)
    ensures var k := SpliceStart(sourceIndex, |sourceColumn|);
      && |r.source| == (if k < |sourceColumn| then |sourceColumn| - 1 else |sourceColumn|)
      && |r.destination| == |destColumn| + 1
      && r.destination[SpliceStart(destIndex, |destColumn|)]
         == (if k < |sourceColumn| then Some(sourceColumn[k]) else None)
  {
    var (rest, removed) := RemoveAt(sourceColumn, sourceIndex);
    MovedLists(rest, Insert(Lift(destColumn), destIndex, removed))
  }

  /** For an in-range source index the source loses exactly that element
      (the others stay in order), the destination gains it at the clamped
      destination index, and together the lists hold the same elements. */
  lemma MoveTaskBetweenColumnsMoves<T>(sourceColumn: seq<T>, destColumn: seq<T>, sourceIndex: int, destIndex: int)
    requires 0 <= sourceIndex < |sourceColumn|
    ensures var r := MoveTaskBetweenColumns(sourceColumn, destColumn, sourceIndex, destIndex);
      var k := SpliceStart(destIndex, |destColumn|);
      && r.source == sourceColumn[..sourceIndex] + sourceColumn[sourceIndex + 1..]
      && |r.source| == |sourceColumn| - 1
      && |r.destination| == |destColumn| + 1
      && r.destination[k] == Some(sourceColumn[sourceIndex])
      && r.destination[..k] + r.destination[k + 1..] == Lift(destColumn)
      && multiset(Lift(r.source)) + multiset(r.destination)
         == multiset(Lift(sourceColumn)) + multiset(Lift(destColumn))
  {
    var r := MoveTaskBetweenColumns(sourceColumn, destColumn, sourceIndex, destIndex);
    var k := SpliceStart(destIndex, |destColumn|);
    LiftRemoveAt(sourceColumn, sourceIndex);
    assert r.source == sourceColumn[..sourceIndex] + sourceColumn[sourceIndex + 1..] by {
      assert sourceColumn == sourceColumn[..sourceIndex] + [sourceColumn[sourceIndex]] + sourceColumn[sourceIndex + 1..];
    }
    assert r.destination[..k] + r.destination[k + 1..] == Lift(destColumn);
  }

  // ----- initials -----

  /** `s.split(" ")`: the pieces between single spaces, empty pieces
      included; there is always at least one piece. */
  function Split(s: string): (parts: seq<string>)
    ensures |parts| >= 1
    ensures forall i :: 0 <= i < |parts| ==> ' ' !in parts[i]
    ensures JoinSpaces(parts) == s
  {
    if s == [] then [""]
    else
      var rest := Split(s[1..]);
      assert s == [s[0]] + s[1..];
      if s[0] == ' ' then [""] + rest
      else [[s[0]] + rest[0]] + rest[1..]
  }

  /** `parts.join(" ")`. */
  function JoinSpaces(parts: seq<string>): string
    requires |parts| >= 1
  {
    if |parts| == 1 then parts[0] else parts[0] + " " + JoinSpaces(parts[1..])
  }

  /** `.map((part) => part[0]).join("")`: the first character of each
      piece; an empty piece gives `undefined`, which joins as nothing. */
  function Heads(parts: seq<string>): (r: string)
    ensures |r| <= |parts|
    ensures (forall i :: 0 <= i < |parts| ==> parts[i] != []) ==> |r| == |parts|
  {
    if parts == [] then []
    else (if parts[0] == [] then [] else [parts[0][0]]) + Heads(parts[1..])
  }

  /** The characters of `s` that start a word: not a space, and either
      first in `s` (when `afterSpace`) or right after a space. */
  function WordStarts(s: string, afterSpace: bool): string
  {
    if s == [] then []
    else (if s[0] != ' ' && afterSpace then [s[0]] else []) + WordStarts(s[1..], s[0] == ' ')
  }

  /** ASCII upper-casing of one character. */
  function UpperChar(c: char): (r: char)
    ensures !('a' <= r <= 'z')
    ensures 'a' <= c <= 'z' ==> 'A' <= r <= 'Z' && r as int == c as int - 32
    ensures !('a' <= c <= 'z') ==> r == c
  {
    if 'a' <= c <= 'z' then (c as int - 32) as char else c
  }

  /** `.toUpperCase()` on ASCII letters. */
  function Upper(s: string): (r: string)
    ensures |r| == |s| && forall i :: 0 <= i < |s| ==> r[i] == UpperChar(s[i])
    ensures forall i :: 0 <= i < |r| ==> !('a' <= r[i] <= 'z')
  {
    seq(|s|, i requires 0 <= i < |s| => UpperChar(s[i]))
  }

  /** Upper-casing twice is upper-casing once. */
  lemma UpperIdempotent(s: string)
    ensures Upper(Upper(s)) == Upper(s)
  {
    var u := Upper(s);
    assert forall i :: 0 <= i < |u| ==> UpperChar(u[i]) == u[i];
  }

  /** `getInitials(name)`. */
  function GetInitials(name: string): (r: string)
    ensures |r| <= 2
  {
    var h := Upper(Heads(Split(name)));
    if |h| <= 2 then h else h[..2]
  }

  /** The heads of the split pieces are exactly the word-start characters. */
  lemma {:induction false} HeadsOfSplit(s: string)
    ensures Heads(Split(s)) == WordStarts(s, true)
    ensures Heads(Split(s)[1..]) == WordStarts(s, false)
  {
    if s != [] {
      HeadsOfSplit(s[1..]);
      var rest := Split(s[1..]);
      if s[0] == ' ' {
        assert Split(s) == [""] + rest;
        assert Split(s)[1..] == rest;
        assert Heads([""] + rest) == Heads(rest) by {
          assert ([""] + rest)[1..] == rest;
        }
      } else {
        var first := [s[0]] + rest[0];
        assert Split(s) == [first] + rest[1..];
        assert Split(s)[1..] == rest[1..];
        assert Heads([first] + rest[1..]) == [s[0]] + Heads(rest[1..]) by {
          assert ([first] + rest[1..])[1..] == rest[1..];
        }
      }
    }
  }

  /** A string yields no word start exactly when it is all spaces (when it
      is read from its own beginning). */
  lemma {:induction false} WordStartsEmpty(s: string)
    ensures WordStarts(s, true) == [] <==> forall i :: 0 <= i < |s| ==> s[i] == ' '
  {
    if s != [] {
      WordStartsEmpty(s[1..]);
      if s[0] == ' ' {
        assert forall i :: 1 <= i < |s| ==> s[i] == s[1..][i - 1];
      } else {
        assert WordStarts(s, true)[0] == s[0];
      }
    }
  }

  /** The initials are the upper-cased first characters of the first (at
      most two) space-separated words, and there are none exactly when the
      name is blank. */
  lemma GetInitialsSpec(name: string)
    ensures var r := GetInitials(name);
      var w := WordStarts(name, true);
      && |r| == (if |w| < 2 then |w| else 2)
      && (forall i :: 0 <= i < |r| ==> r[i] == UpperChar(w[i]))
      && (forall i :: 0 <= i < |r| ==> !('a' <= r[i] <= 'z'))
      && (r == [] <==> forall i :: 0 <= i < |name| ==> name[i] == ' ')
  {
    var w := WordStarts(name, true);
    HeadsOfSplit(name);
    WordStartsEmpty(name);
    var u := Upper(w);
    assert GetInitials(name) == if |u| <= 2 then u else u[..2];
  }

  // ----- priority colours -----

  const LowClass := "bg-blue-100 text-blue-700 border-l-4 border-blue-500"
  const MediumClass := "bg-yellow-100 text-yellow-700 border-l-4 border-yellow-500"
  const HighClass := "bg-orange-100 text-orange-700 border-l-4 border-orange-500"
  const UrgentClass := "bg-red-100 text-red-700 border-l-4 border-red-500"

  /** `getPriorityColor(priority)`: the class string for a known priority
      name, the medium one for anything else. */
  function GetPriorityColor(priority: string): (r: string)
    ensures r == LowClass || r == MediumClass || r == HighClass || r == UrgentClass
    ensures r == LowClass <==> priority == "low"
    ensures r == HighClass <==> priority == "high"
    ensures r == UrgentClass <==> priority == "urgent"
    ensures r == MediumClass <==> priority != "low" && priority != "high" && priority != "urgent"
  {
    if priority == "low" then LowClass
    else if priority == "medium" then MediumClass
    else if priority == "high" then HighClass
    else if priority == "urgent" then UrgentClass
    else MediumClass
  }
}
