/**
 * The small helpers of the menus (src/ui/menu.jsx): the first free save
 * slot, the room-id sanitiser, deleting an entry from a listed collection,
 * and `clamp`.
 */
module Menu {
  /** An entry of the saved-game or image list: its database key and the record. */
  datatype Entry<V> = Entry(id: int, value: V)

  /**
   * `fb` is the value the firstBlank loop ends with: the ids of the first
   * fb-1 entries are 1, 2, ..., fb-1 and the next entry, if any, is not fb.
   */
  predicate IsFirstBlank<V>(list: seq<Entry<V>>, fb: int) {
    1 <= fb <= |list| + 1 &&
    (forall i :: 0 <= i < fb - 1 ==> list[i].id == i + 1) &&
    (fb - 1 < |list| ==> list[fb - 1].id != fb)
  }

  /** The firstBlank loop of the main menu. */
  method FirstBlank<V>(list: seq<Entry<V>>) returns (firstBlank: int)
    ensures IsFirstBlank(list, firstBlank)
  {
    firstBlank := 1;
    for k := 0 to |list|
      invariant firstBlank == k + 1
      invariant forall i :: 0 <= i < k ==> list[i].id == i + 1
    {
      if firstBlank != list[k].id {
        return;
      }
      firstBlank := firstBlank + 1;
    }
  }

  /** The saved games come back from the database in increasing key order, keys from 1 up. */
  predicate AscendingIds<V>(list: seq<Entry<V>>) {
    (forall i :: 0 <= i < |list| ==> list[i].id >= 1) &&
    (forall i, j :: 0 <= i < j < |list| ==> list[i].id < list[j].id)
  }

  lemma {:induction false} AscendingAtLeastPosition<V>(list: seq<Entry<V>>, i: int)
    requires AscendingIds(list) && 0 <= i < |list|
    ensures list[i].id >= i + 1
    decreases i
  {
    if i > 0 {
      AscendingAtLeastPosition(list, i - 1);
    }
  }

  /**
   * On an ascending list the first blank is a free slot, and every slot
   * below it is taken.
   */
  lemma FirstBlankIsFree<V>(list: seq<Entry<V>>, fb: int)
    requires AscendingIds(list) && IsFirstBlank(list, fb)
    ensures forall i :: 0 <= i < |list| ==> list[i].id != fb
  {
    if fb - 1 < |list| {
      AscendingAtLeastPosition(list, fb - 1);
      forall i | fb - 1 < i < |list|
        ensures list[i].id > fb
      {
        assert list[fb - 1].id < list[i].id;
      }
    }
  }

  /** "New game" is offered only while firstBlank <= 5. */
  predicate NewGameOffered(firstBlank: int) {
    firstBlank <= 5
  }

  /** ... which is exactly when the first five entries are not saves 1 to 5. */
  lemma NewGameOfferedIffSlotFree<V>(list: seq<Entry<V>>, fb: int)
    requires IsFirstBlank(list, fb)
    ensures NewGameOffered(fb) <==> !(|list| >= 5 && forall i :: 0 <= i < 5 ==> list[i].id == i + 1)
  {
    if !NewGameOffered(fb) {
      assert forall i :: 0 <= i < 5 ==> list[i].id == i + 1;
    } else if |list| >= 5 {
      assert list[fb - 1].id != fb;
    }
  }

  predicate IsAsciiLetter(c: char) {
    'a' <= c <= 'z' || 'A' <= c <= 'Z'
  }

  /** `replace(/[^a-z]+/gi, "")`: keep the letters, in order. */
  function Letters(s: string): (r: string)
    ensures |r| <= |s|
    ensures forall i :: 0 <= i < |r| ==> IsAsciiLetter(r[i])
    ensures (forall i :: 0 <= i < |s| ==> IsAsciiLetter(s[i])) ==> r == s
  {
    if |s| == 0 then ""
    else if IsAsciiLetter(s[0]) then [s[0]] + Letters(s[1..])
    else Letters(s[1..])
  }

  /** `slice(0, n)` for n >= 0. */
  function Prefix(s: string, n: nat): (r: string)
    ensures |r| == if |s| <= n then |s| else n
    ensures r == s[..|r|]
  {
    if |s| <= n then s else s[..n]
  }

  /** `toUpperCase` on an ASCII letter. */
  function UpperChar(c: char): (u: char)
    requires IsAsciiLetter(c)
    ensures 'A' <= u <= 'Z'
    ensures 'A' <= c <= 'Z' ==> u == c
  {
    if 'a' <= c <= 'z' then (c as int - 32) as char else c
  }

  function Upper(s: string): (r: string)
    requires forall i :: 0 <= i < |s| ==> IsAsciiLetter(s[i])
    ensures |r| == |s|
    ensures forall i :: 0 <= i < |r| ==> 'A' <= r[i] <= 'Z' && r[i] == UpperChar(s[i])
  {
    seq(|s|, i requires 0 <= i < |s| => UpperChar(s[i]))
  }

  /** The room-id sanitiser of `setRoom`: letters only, at most ten, upper case. */
  function SanitizeRoomId(s: string): (r: string)
    ensures |r| <= 10
    ensures forall i :: 0 <= i < |r| ==> 'A' <= r[i] <= 'Z'
    ensures |r| == if |Letters(s)| <= 10 then |Letters(s)| else 10
  {
    Upper(Prefix(Letters(s), 10))
  }

  /** Sanitising an id that was already sanitised changes nothing. */
  lemma SanitizeIdempotent(s: string)
    ensures SanitizeRoomId(SanitizeRoomId(s)) == SanitizeRoomId(s)
  {
    var r := SanitizeRoomId(s);
    assert Letters(r) == r;
    assert Prefix(r, 10) == r;
    assert Upper(r) == r;
  }

  /** The host/join button is disabled while the room id has fewer than five characters. */
  predicate StartDisabled(roomId: string) {
    |roomId| < 5
  }

  /** After typing `s`, the button is enabled exactly when `s` holds at least five letters. */
  lemma StartEnabledIffFiveLetters(s: string)
    ensures !StartDisabled(SanitizeRoomId(s)) <==> |Letters(s)| >= 5
  {
  }

  /** `findIndex` on the id: the first position holding `id`, or -1. */
  function FindIndex<V>(list: seq<Entry<V>>, id: int): (i: int)
    ensures -1 <= i < |list|
    ensures i >= 0 ==> list[i].id == id && forall j :: 0 <= j < i ==> list[j].id != id
    ensures i == -1 <==> forall j :: 0 <= j < |list| ==> list[j].id != id
  {
    if |list| == 0 then -1
    else if list[0].id == id then 0
    else
      var k := FindIndex(list[1..], id);
      if k == -1 then -1 else k + 1
  }

  /** Array.prototype.slice: negative positions count from the end, and both ends are clamped. */
  function SliceIndex(n: nat, k: int): (r: nat)
    ensures r <= n
    ensures 0 <= k <= n ==> r == k
  {
    if k < 0 then (if n + k < 0 then 0 else n + k) else if k > n then n else k
  }

  function Slice<T>(s: seq<T>, start: int, end: int): (r: seq<T>)
    ensures 0 <= start <= end <= |s| ==> r == s[start..end]
  {
    var a := SliceIndex(|s|, start);
    var b := SliceIndex(|s|, end);
    if a <= b then s[a..b] else []
  }

  /**
   * The list update after a confirmed deletion (the saved-game list and the
   * image list are updated the same way): the entries before and after the
   * first entry with that id, in order.
   */
  function DeleteById<V>(list: seq<Entry<V>>, id: int): (r: seq<Entry<V>>)
    ensures var i := FindIndex(list, id);
      i >= 0 ==> r == list[..i] + list[i + 1..] && |r| == |list| - 1
    ensures FindIndex(list, id) == -1 && |list| > 0 ==> r == list[..|list| - 1] + list
    ensures |list| == 0 ==> r == []
  {
    var index := FindIndex(list, id);
    SliceAround(list, index);
    Slice(list, 0, index) + Slice(list, index + 1, |list|)
  }

  lemma SliceAround<T>(s: seq<T>, index: int)
    requires -1 <= index < |s|
    ensures index >= 0 ==> Slice(s, 0, index) == s[..index] && Slice(s, index + 1, |s|) == s[index + 1..]
    ensures index == -1 ==> Slice(s, index + 1, |s|) == s
    ensures index == -1 && |s| > 0 ==> Slice(s, 0, index) == s[..|s| - 1]
    ensures index == -1 && |s| == 0 ==> Slice(s, 0, index) == []
  {
  }

  /** With distinct ids, deleting a listed id keeps every other entry and drops only that one. */
  lemma DeleteRemovesExactly<V>(list: seq<Entry<V>>, id: int)
    requires forall i, j :: 0 <= i < j < |list| ==> list[i].id != list[j].id
    requires FindIndex(list, id) >= 0
    ensures forall e :: e in DeleteById(list, id) <==> e in list && e.id != id
  {
    var i := FindIndex(list, id);
    var r := DeleteById(list, id);
    forall e
      ensures e in r <==> e in list && e.id != id
    {
      if e in r {
        var k :| 0 <= k < |r| && r[k] == e;
        DeletedAt(list, id, k);
      }
      if e in list && e.id != id {
        var k :| 0 <= k < |list| && list[k] == e;
        if k < i {
          DeletedAt(list, id, k);
        } else {
          DeletedAt(list, id, k - 1);
        }
      }
    }
  }

  lemma DeletedAt<V>(list: seq<Entry<V>>, id: int, k: int)
    requires forall i, j :: 0 <= i < j < |list| ==> list[i].id != list[j].id
    requires FindIndex(list, id) >= 0
    requires 0 <= k < |list| - 1
    ensures var i := FindIndex(list, id);
      DeleteById(list, id)[k] == (if k < i then list[k] else list[k + 1]) &&
      DeleteById(list, id)[k].id != id
  {
  }

  /** Counted with multiplicity, the deletion removes exactly the entry found. */
  lemma DeleteDropsOne<V>(list: seq<Entry<V>>, id: int)
    requires FindIndex(list, id) >= 0
    ensures multiset(DeleteById(list, id)) + multiset{list[FindIndex(list, id)]} == multiset(list)
  {
    var i := FindIndex(list, id);
    MultisetAround(list, i);
  }

  lemma MultisetAround<T>(s: seq<T>, i: int)
    requires 0 <= i < |s|
    ensures multiset(s[..i] + s[i + 1..]) + multiset{s[i]} == multiset(s)
  {
    assert s == s[..i] + [s[i]] + s[i + 1..];
    assert multiset(s[..i] + [s[i]] + s[i + 1..]) == multiset(s[..i] + [s[i]]) + multiset(s[i + 1..]);
  }

  /** clamp(v, min, max) = max(min, min(max, v)). */
  function Clamp(v: real, min: real, max: real): (r: real)
    ensures min <= max ==> min <= r <= max
    ensures min <= v <= max ==> r == v
    ensures min <= max && v < min ==> r == min
    ensures min <= max && max < v ==> r == max
  {
    var m := if max < v then max else v;
    if min > m then min else m
  }
}
