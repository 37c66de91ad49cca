/** Values shared by every part of the model: the host language's nullable
    strings and object references, opaque floating-point values, and the
    option/result wrappers that stand in for `null` returns and exceptions. */
module Common {

  /** A C# `string`: either `null` or a sequence of characters. `null` and
      `""` are different values. */
  datatype NString = Null | Str(value: string)

  /** An opaque C# object reference (user data, an asset, an agent, a
      channel ...): either `null` or some identity. */
  datatype Ref = NullRef | Ref(id: nat)

  /** A C# `float`, carried around but never computed with. `Zero` is `0f`. */
  datatype Float = Float(bits: bv32)

  const Zero: Float := Float(0)

  /** A `LoadResourceStatus` value, known here only by its printed name. */
  datatype LoadResourceStatus = LoadResourceStatus(name: string)

  datatype Option<+T> = None | Some(value: T)

  datatype Result<+T, +E> = Ok(value: T) | Err(error: E)

  /** C# `string.IsNullOrEmpty`. */
  predicate IsNullOrEmpty(s: NString) {
    s.Null? || s.value == []
  }

  /** How string interpolation and `string.Format` print a string argument:
      `null` prints as nothing. */
  function Render(s: NString): (r: string)
    ensures s.Str? ==> r == s.value
    ensures s.Null? ==> r == []
  {
    match s
    case Null => []
    case Str(v) => v
  }

  /** `t` occurs as a contiguous piece of `s`. */
  predicate Contains(s: string, t: string) {
    exists i :: 0 <= i <= |s| && t <= s[i..]
  }

  /** A string placed between two others occurs in the concatenation. */
  lemma ContainsMiddle(prefix: string, t: string, suffix: string)
    ensures Contains(prefix + t + suffix, t)
  {
    var s := prefix + t + suffix;
    assert s[|prefix|..] == t + suffix;
  }

  /** The three arguments of a three-placeholder format string all occur in
      the formatted text. */
  lemma ContainsFormatted3(p0: string, a: string, p1: string, b: string, p2: string, c: string, p3: string)
    ensures Contains(p0 + a + p1 + b + p2 + c + p3, a)
    ensures Contains(p0 + a + p1 + b + p2 + c + p3, b)
    ensures Contains(p0 + a + p1 + b + p2 + c + p3, c)
  {
    var s := p0 + a + p1 + b + p2 + c + p3;
    ContainsMiddle(p0, a, p1 + b + p2 + c + p3);
    assert s == p0 + a + (p1 + b + p2 + c + p3);
    ContainsMiddle(p0 + a + p1, b, p2 + c + p3);
    assert s == p0 + a + p1 + b + (p2 + c + p3);
    ContainsMiddle(p0 + a + p1 + b + p2, c, p3);
  }
}

/** The C# 32-bit `int`: its range and the unchecked (wrapping) increment. */
module Int32 {

  const MinValue: int := -0x8000_0000
  const MaxValue: int := 0x7FFF_FFFF

  predicate InRange(x: int) {
    MinValue <= x <= MaxValue
  }

  /** `++x` and `Interlocked.Increment` on an `int`: one more, except that
      `int.MaxValue` wraps round to `int.MinValue`. */
  function Increment(x: int): (r: int)
    requires InRange(x)
    ensures InRange(r)
    ensures x < MaxValue ==> r == x + 1 && r > x
    ensures x == MaxValue ==> r == MinValue && r < x
  {
    if x == MaxValue then MinValue else x + 1
  }
}

/** `List<T>` operations as the scene manager uses them, on sequences. */
module Lists {

  /** No element occurs twice. */
  predicate NoDup<T(==)>(s: seq<T>) {
    forall i, j :: 0 <= i < j < |s| ==> s[i] != s[j]
  }

  /** `List<T>.Remove`: drops the first occurrence of `x`, if any, keeping
      the order of the rest (`RemoveFirstSplits`). */
  function RemoveFirst<T(==)>(s: seq<T>, x: T): (r: seq<T>)
    ensures multiset(r) == multiset(s) - multiset{x}
    ensures x !in s ==> r == s
    ensures |r| == if x in s then |s| - 1 else |s|
  {
    if s == [] then []
    else
      assert s == [s[0]] + s[1..];
      if s[0] == x then s[1..]
      else [s[0]] + RemoveFirst(s[1..], x)
  }

  /** Cutting position `j + 1` out of `[h] + t` is cutting position `j`
      out of `t`, behind `h`. */
  lemma SpliceBehindHead<T>(h: T, t: seq<T>, j: nat)
    requires j < |t|
    ensures ([h] + t)[..j + 1] == [h] + t[..j]
    ensures ([h] + t)[j + 2..] == t[j + 1..]
    ensures ([h] + t)[..j + 1] + ([h] + t)[j + 2..] == [h] + (t[..j] + t[j + 1..])
  {
  }

  /** `Remove` takes out the first occurrence of `x`, at position `i`, and
      keeps the order of everything else. */
  lemma {:induction false} RemoveFirstSplits<T>(s: seq<T>, x: T) returns (i: nat)
    requires x in s
    ensures i < |s| && s[i] == x && x !in s[..i]
    ensures RemoveFirst(s, x) == s[..i] + s[i + 1..]
  {
    if s[0] == x {
      i := 0;
    } else {
      var h, tail := s[0], s[1..];
      assert s == [h] + tail;
      var j := RemoveFirstSplits(tail, x);
      SpliceBehindHead(h, tail, j);
      i := j + 1;
    }
  }

  /** The tail of a duplicate-free list is duplicate-free and misses the head. */
  lemma NoDupTail<T>(s: seq<T>)
    requires NoDup(s) && |s| > 0
    ensures NoDup(s[1..]) && s[0] !in s[1..]
  {
    var tail := s[1..];
    forall i, j | 0 <= i < j < |tail| ensures tail[i] != tail[j] {
      assert tail[i] == s[i + 1] && tail[j] == s[j + 1];
    }
    forall k | 0 <= k < |tail| ensures tail[k] != s[0] {
      assert tail[k] == s[k + 1];
    }
  }

  /** Putting a new element in front of a duplicate-free list keeps it so. */
  lemma NoDupCons<T>(h: T, t: seq<T>)
    requires NoDup(t) && h !in t
    ensures NoDup([h] + t)
  {
    var r := [h] + t;
    forall i, j | 0 <= i < j < |r| ensures r[i] != r[j] {
      assert r[j] == t[j - 1];
      if i > 0 {
        assert r[i] == t[i - 1];
      }
    }
  }

  /** In a list without duplicates, `Remove` takes away exactly `x`. */
  lemma {:induction false} RemoveFirstNoDup<T>(s: seq<T>, x: T)
    requires NoDup(s)
    ensures NoDup(RemoveFirst(s, x))
    ensures forall y :: y in RemoveFirst(s, x) <==> y in s && y != x
  {
    if s != [] {
      NoDupTail(s);
      assert s == [s[0]] + s[1..];
      if s[0] != x {
        RemoveFirstNoDup(s[1..], x);
        NoDupCons(s[0], RemoveFirst(s[1..], x));
      }
    }
  }

  /** Removing an element just appended to a list that did not hold it
      gives the list back. */
  lemma {:induction false} RemoveAppended<T>(s: seq<T>, x: T)
    requires x !in s
    ensures RemoveFirst(s + [x], x) == s
  {
    if s != [] {
      assert (s + [x])[1..] == s[1..] + [x];
      RemoveAppended(s[1..], x);
      assert s == [s[0]] + s[1..];
    }
  }
}
