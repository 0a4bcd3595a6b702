/**
 * The pagination endpoint of `test_fastapi/03_query_parameter.py`:
 * `get_user(skip, limit)` answers `fake_item_db[skip: skip + limit]`,
 * a Python slice over a fixed list of three items.
 *
 * Python normalises each bound of a step-1 slice on its own: a negative
 * bound counts from the end, and a bound still out of range is clamped
 * to `0` or to the length. The slice is then empty when the normalised
 * stop does not exceed the normalised start.
 */
module QueryParameter {

  /** One item of the fake database: `{"item_name": ...}`. */
  datatype Item = Item(itemName: string)

  const FakeItemDb: seq<Item> := [Item("Foo"), Item("Bar"), Item("Bax")]

  /** The endpoint's default query parameters. */
  const DefaultSkip: int := 0
  const DefaultLimit: int := 10

  function Min(a: int, b: int): int { if a <= b then a else b }
  function Max(a: int, b: int): int { if a <= b then b else a }

  /** One slice bound normalised against a sequence of length `n`. */
  function Bound(i: int, n: nat): (r: nat)
    ensures r <= n
    ensures 0 <= i <= n ==> r == i
    ensures n < i ==> r == n
    ensures -(n as int) <= i < 0 ==> r == n + i
    ensures i < -(n as int) ==> r == 0
  {
    if i < 0 then (if i + n < 0 then 0 else i + n)
    else if i >= n then n
    else i
  }

  /** `s[start:stop]` with Python's rules for the bounds. */
  function Slice<T>(s: seq<T>, start: int, stop: int): (r: seq<T>)
    ensures |r| == Max(0, Bound(stop, |s|) - Bound(start, |s|))
    ensures forall k :: 0 <= k < |r| ==> r[k] == s[Bound(start, |s|) + k]
  {
    var lo, hi := Bound(start, |s|), Bound(stop, |s|);
    if lo < hi then s[lo..hi] else []
  }

  /** Whatever the bounds, a slice is a contiguous window of `s`. */
  lemma SliceIsWindow<T>(s: seq<T>, start: int, stop: int)
    ensures exists lo, hi :: 0 <= lo <= hi <= |s| && Slice(s, start, stop) == s[lo..hi]
  {
    var lo := Bound(start, |s|);
    var hi := Max(lo, Bound(stop, |s|));
    assert Slice(s, start, stop) == s[lo..hi];
  }

  /**
   * `get_user` as written: the slice `[skip: skip + limit]`. A negative
   * `limit` is not rejected, so `skip + limit` may fall below zero and
   * then counts from the end like any negative stop.
   */
  function GetUser(skip: int, limit: int): (r: seq<Item>)
    ensures |r| <= |FakeItemDb|
    ensures skip >= 0 && limit >= 0 ==>
              |r| == Min(limit, Max(0, |FakeItemDb| - skip))
    ensures skip >= 0 ==>
              forall k :: 0 <= k < |r| ==>
                skip + k < |FakeItemDb| && r[k] == FakeItemDb[skip + k]
    ensures skip >= |FakeItemDb| ==> r == []
  {
    var r := Slice(FakeItemDb, skip, skip + limit);
    assert |r| == 0 ==> r == [];
    r
  }

  /**
   * A negative `limit` still returns items: `skip=0, limit=-1` reads
   * `fake_item_db[0:-1]`, which holds two items where a page of at most
   * `max(0, limit)` items was meant.
   */
  lemma GetUserNegativeLimit()
    ensures GetUser(0, -1) == [Item("Foo"), Item("Bar")]
    ensures |GetUser(0, -1)| > Max(0, -1)
  {
  }

  /**
   * The page `get_user` evidently means: a negative `limit` is read as
   * zero, so a page never holds more than `max(0, limit)` items.
   */
  function GetPage(skip: int, limit: int): (r: seq<Item>)
    ensures |r| <= Max(0, limit)
    ensures skip >= 0 && limit <= 0 ==> r == []
    ensures limit >= 0 ==> r == GetUser(skip, limit)
  {
    var r := Slice(FakeItemDb, skip, skip + Max(0, limit));
    assert |r| == 0 ==> r == [];
    r
  }

  /** With the default parameters every item comes back, in order. */
  lemma GetUserDefaults()
    ensures GetUser(DefaultSkip, DefaultLimit) == FakeItemDb
  {
  }

  /** Every page is a contiguous run of the database. */
  lemma GetUserIsWindow(skip: int, limit: int)
    ensures exists lo, hi :: 0 <= lo <= hi <= |FakeItemDb| &&
              GetUser(skip, limit) == FakeItemDb[lo..hi]
  {
    SliceIsWindow(FakeItemDb, skip, skip + limit);
  }

  /**
   * A negative `skip` counts from the end; when `skip + limit` reaches
   * past the end, the page is the last `-skip` items.
   */
  lemma GetUserFromEnd(skip: int, limit: int)
    requires -|FakeItemDb| <= skip < 0 && skip + limit >= |FakeItemDb|
    ensures GetUser(skip, limit) == FakeItemDb[|FakeItemDb| + skip..]
  {
  }

  /**
   * A negative `skip` whose `skip + limit` is not negative uses that sum
   * as a plain stop index, so a short page from the end comes back empty.
   */
  lemma GetUserFromEndShort(skip: int, limit: int)
    requires -|FakeItemDb| <= skip < 0 && 0 <= skip + limit <= |FakeItemDb| + skip
    ensures GetUser(skip, limit) == []
  {
  }

  /** `skip=-1, limit=10` gives the last item only. */
  lemma GetUserLastItem()
    ensures GetUser(-1, 10) == [Item("Bax")]
  {
  }
}
