/**
 * The `OtpInput` component of Login.jsx. `handleChange` edits the OTP string
 * by splitting it into a character array, assigning `val.slice(-1)` at the
 * box's index and joining with "". Array assignment past the end leaves holes
 * and an empty entry joins as nothing, so the edit is not a plain "set box i":
 * clearing a box shifts later digits left and typing past the end appends.
 */
module OtpInput {
  import opened Wrappers

  /** Number of boxes the login page renders. */
  const BoxCount := 6

  /** An array element: a hole (never assigned) or a string. */
  datatype Slot = Hole | Entry(s: string)

  /** `value.split("")`: one single-character entry per character. */
  function Split(value: string): (arr: seq<Slot>)
    ensures |arr| == |value|
    ensures forall i :: 0 <= i < |value| ==> arr[i] == Entry([value[i]])
  {
    seq(|value|, i requires 0 <= i < |value| => Entry([value[i]]))
  }

  /** What an element contributes to `join("")`. */
  function SlotText(x: Slot): string
  {
    match x
    case Hole => ""
    case Entry(s) => s
  }

  /** `arr.join("")`. */
  function Join(arr: seq<Slot>): string
  {
    if |arr| == 0 then "" else SlotText(arr[0]) + Join(arr[1..])
  }

  /** `n` holes: the gap that `arr[index] = x` leaves past the end. */
  function Holes(n: nat): (arr: seq<Slot>)
    ensures |arr| == n && forall i :: 0 <= i < n ==> arr[i] == Hole
  {
    seq(n, i => Hole)
  }

  /** `arr[index] = x`: overwrite in range, or extend the array with holes. */
  function Assign(arr: seq<Slot>, index: nat, x: string): (r: seq<Slot>)
    ensures |r| == if index < |arr| then |arr| else index + 1
    ensures r[index] == Entry(x)
    ensures forall i :: 0 <= i < |arr| && i != index ==> r[i] == arr[i]
    ensures forall i :: |arr| <= i < index ==> r[i] == Hole
  {
    if index < |arr| then arr[index := Entry(x)] else arr + Holes(index - |arr|) + [Entry(x)]
  }

  /** `val.slice(-1)`: the last character, or "" for an empty string. */
  function LastChar(val: string): (x: string)
    ensures |x| <= 1
    ensures val != "" ==> x == [val[|val| - 1]]
    ensures val == "" ==> x == ""
  {
    if |val| == 0 then "" else val[|val| - 1..]
  }

  /** `handleChange(val, index)`: the string passed to `onChange`. */
  function HandleChange(value: string, val: string, index: nat): string
  {
    Join(Assign(Split(value), index, LastChar(val)))
  }

  lemma {:induction false} JoinAppend(a: seq<Slot>, b: seq<Slot>)
    ensures Join(a + b) == Join(a) + Join(b)
    decreases |a|
  {
    if |a| == 0 {
      assert a + b == b;
    } else {
      assert (a + b)[1..] == a[1..] + b;
      JoinAppend(a[1..], b);
    }
  }

  lemma {:induction false} JoinSplit(v: string)
    ensures Join(Split(v)) == v
    decreases |v|
  {
    if |v| > 0 {
      assert Split(v)[1..] == Split(v[1..]);
      JoinSplit(v[1..]);
      assert v == [v[0]] + v[1..];
    }
  }

  lemma {:induction false} JoinHoles(n: nat)
    ensures Join(Holes(n)) == ""
    decreases n
  {
    if n > 0 {
      assert Holes(n)[1..] == Holes(n - 1);
      JoinHoles(n - 1);
    }
  }

  /** Inside the string, the edit replaces one character by `val.slice(-1)`. */
  lemma ChangeInRange(value: string, val: string, index: nat)
    requires index < |value|
    ensures HandleChange(value, val, index) == value[..index] + LastChar(val) + value[index + 1..]
  {
    var arr := Split(value);
    var r := Assign(arr, index, LastChar(val));
    assert r == Split(value[..index]) + [Entry(LastChar(val))] + Split(value[index + 1..]);
    JoinAppend(Split(value[..index]) + [Entry(LastChar(val))], Split(value[index + 1..]));
    JoinAppend(Split(value[..index]), [Entry(LastChar(val))]);
    JoinSplit(value[..index]);
    JoinSplit(value[index + 1..]);
    assert Join([Entry(LastChar(val))]) == LastChar(val) + Join([]);
  }

  /** Typing into a filled box keeps the length and changes only that box. */
  lemma OverwriteInPlace(value: string, val: string, index: nat)
    requires index < |value| && val != ""
    ensures |HandleChange(value, val, index)| == |value|
    ensures HandleChange(value, val, index)[index] == val[|val| - 1]
    ensures forall j :: 0 <= j < |value| && j != index ==> HandleChange(value, val, index)[j] == value[j]
  {
    ChangeInRange(value, val, index);
  }

  /** Clearing a filled box deletes its character: later digits shift one box left. */
  lemma ClearShiftsLeft(value: string, index: nat)
    requires index < |value|
    ensures HandleChange(value, "", index) == value[..index] + value[index + 1..]
    ensures |HandleChange(value, "", index)| == |value| - 1
    ensures forall j :: index <= j < |value| - 1 ==> HandleChange(value, "", index)[j] == value[j + 1]
  {
    ChangeInRange(value, "", index);
  }

  /** Editing a box at or past the end appends the character, whatever the index. */
  lemma PastEndAppends(value: string, val: string, index: nat)
    requires index >= |value|
    ensures HandleChange(value, val, index) == value + LastChar(val)
  {
    var arr := Split(value);
    var holes := Holes(index - |arr|);
    JoinAppend(arr + holes, [Entry(LastChar(val))]);
    JoinAppend(arr, holes);
    JoinSplit(value);
    JoinHoles(index - |arr|);
    assert Join([Entry(LastChar(val))]) == LastChar(val) + Join([]);
  }

  /** The text box `i` shows: `value[i] || ""`. */
  function BoxText(value: string, i: nat): (t: string)
    ensures i < |value| ==> t == [value[i]]
    ensures i >= |value| ==> t == ""
  {
    if i < |value| then value[i..i + 1] else ""
  }

  /**
   * A digit typed into a box beyond the first empty one is displayed in the
   * first empty box, and the box typed into stays empty.
   */
  lemma TypedDigitLandsInFirstEmptyBox(value: string, val: string, index: nat)
    requires index > |value| && val != ""
    ensures BoxText(HandleChange(value, val, index), |value|) == LastChar(val)
    ensures BoxText(HandleChange(value, val, index), index) == ""
  {
    PastEndAppends(value, val, index);
  }

  /** After `handleChange`: focus moves to the next box only when a character was typed. */
  function FocusAfterChange(val: string, index: nat, length: nat): (next: Option<nat>)
    ensures next.Some? <==> val != "" && index + 1 < length
    ensures next.Some? ==> next.value == index + 1 && next.value < length
  {
    if val != "" && index < length - 1 then Some(index + 1) else None
  }

  /** After `handleKeyDown`: Backspace on an empty box moves focus back one box. */
  function FocusAfterKey(key: string, value: string, i: nat): (prev: Option<nat>)
    ensures prev.Some? <==> key == "Backspace" && i >= |value| && i > 0
    ensures prev.Some? ==> prev.value + 1 == i
  {
    if key == "Backspace" && BoxText(value, i) == "" && i > 0 then Some(i - 1) else None
  }

  /** Focus never leaves the row of boxes. */
  lemma FocusStaysInBoxes(val: string, key: string, value: string, i: nat)
    requires i < BoxCount
    ensures FocusAfterChange(val, i, BoxCount).Some? ==> FocusAfterChange(val, i, BoxCount).value < BoxCount
    ensures FocusAfterKey(key, value, i).Some? ==> FocusAfterKey(key, value, i).value < BoxCount
    ensures FocusAfterChange(val, BoxCount - 1, BoxCount) == None
    ensures FocusAfterKey(key, value, 0) == None
  {
  }
}
