/** Small building blocks shared by the catalog model: optional values and
    errors, the JavaScript string operations the stores use (ASCII model of
    toLowerCase, trim and includes), order-preserving filtering, and an
    insertion-ordered string-keyed record (a JavaScript object used as a
    dictionary). */
module Common {

  datatype Option<+T> = None | Some(value: T) {
    function GetOr(default: T): T {
      match this
      case Some(v) => v
      case None => default
    }
  }

  datatype Result<+R, +E> = Success(value: R) | Failure(error: E)

  // ---------------------------------------------------------------------------
  // Strings

  /** ASCII model of String.prototype.toLowerCase on one character. */
  function LowerChar(c: char): char {
    if 'A' <= c <= 'Z' then (c as int + 32) as char else c
  }

  /** ASCII model of String.prototype.toLowerCase. */
  function Lower(s: string): (r: string)
    ensures |r| == |s|
    ensures forall i :: 0 <= i < |s| ==> r[i] == LowerChar(s[i])
  {
    seq(|s|, i requires 0 <= i < |s| => LowerChar(s[i]))
  }

  /** Lowercasing twice is lowercasing once. */
  lemma LowerIdempotent(s: string)
    ensures Lower(Lower(s)) == Lower(s)
  {
  }

  lemma LowerAppend(a: string, b: string)
    ensures Lower(a + b) == Lower(a) + Lower(b)
  {
  }

  /** The whitespace characters String.prototype.trim removes, restricted to ASCII. */
  predicate IsSpace(c: char) {
    c == ' ' || c == '\t' || c == '\n' || c == '\r' || c == '\U{B}' || c == '\U{C}'
  }

  function TrimStart(s: string): (r: string)
    ensures |r| <= |s| && r == s[|s| - |r|..]
    ensures r == [] || !IsSpace(r[0])
  {
    if |s| > 0 && IsSpace(s[0]) then TrimStart(s[1..]) else s
  }

  function TrimEnd(s: string): (r: string)
    ensures |r| <= |s| && r == s[..|r|]
    ensures r == [] || !IsSpace(r[|r| - 1])
  {
    if |s| > 0 && IsSpace(s[|s| - 1]) then TrimEnd(s[..|s| - 1]) else s
  }

  /** String.prototype.trim: whitespace removed from both ends. */
  function Trim(s: string): (r: string)
    ensures |r| <= |s|
    ensures r == [] || (!IsSpace(r[0]) && !IsSpace(r[|r| - 1]))
  {
    TrimEnd(TrimStart(s))
  }

  /** String.prototype.includes: `needle` occurs in `hay` at some offset. */
  predicate Contains(hay: string, needle: string) {
    needle <= hay || (|hay| > 0 && Contains(hay[1..], needle))
  }

  lemma {:induction false} ContainsAt(hay: string, needle: string)
    ensures Contains(hay, needle) <==>
      exists i :: 0 <= i <= |hay| - |needle| && needle <= hay[i..]
  {
    assert hay[0..] == hay;
    if |hay| > 0 {
      ContainsAt(hay[1..], needle);
      if Contains(hay[1..], needle) {
        var i :| 0 <= i <= |hay[1..]| - |needle| && needle <= hay[1..][i..];
        assert hay[1..][i..] == hay[i + 1..];
      }
      if exists i :: 0 <= i <= |hay| - |needle| && needle <= hay[i..] {
        var i :| 0 <= i <= |hay| - |needle| && needle <= hay[i..];
        if i > 0 {
          assert hay[1..][i - 1..] == hay[i..];
          assert Contains(hay[1..], needle);
        }
      }
    } else {
      if exists i :: 0 <= i <= |hay| - |needle| && needle <= hay[i..] {
        var i :| 0 <= i <= |hay| - |needle| && needle <= hay[i..];
        assert i == 0;
      }
    }
  }

  /** A string containing `a + b` contains `a`. */
  lemma {:induction false} ContainsPrefix(hay: string, a: string, b: string)
    requires Contains(hay, a + b)
    ensures Contains(hay, a)
  {
    if !(a + b <= hay) {
      ContainsPrefix(hay[1..], a, b);
    } else {
      assert a == (a + b)[..|a|];
    }
  }

  /** Decimal rendering of an integer, as String(n) produces for integral numbers. */
  function DecimalString(n: int): (r: string)
    ensures r != ""
    decreases if n < 0 then 1 - n else n
  {
    if n < 0 then "-" + DecimalString(-n)
    else if n < 10 then [(('0' as int) + n) as char]
    else DecimalString(n / 10) + [(('0' as int) + n % 10) as char]
  }

  // ---------------------------------------------------------------------------
  // Order-preserving filtering (Array.prototype.filter)

  /** `r` is obtained from `s` by deleting elements, keeping the order of the rest. */
  predicate Subseq<T(==)>(r: seq<T>, s: seq<T>)
    decreases |s|
  {
    |r| == 0 || (|s| > 0 && (if r[0] == s[0] then Subseq(r[1..], s[1..]) else Subseq(r, s[1..])))
  }

  lemma {:induction false} SubseqOfTail<T>(r: seq<T>, s: seq<T>, x: T)
    requires Subseq(r, s)
    ensures Subseq(r, [x] + s)
    decreases |s|, 1
  {
    var t := [x] + s;
    assert t[1..] == s;
    if |r| > 0 && r[0] == x {
      SubseqDropFirst(r, s);
    }
  }

  lemma {:induction false} SubseqDropFirst<T>(r: seq<T>, s: seq<T>)
    requires |r| > 0 && Subseq(r, s)
    ensures Subseq(r[1..], s)
    decreases |s|, 0
  {
    if r[0] == s[0] {
      SubseqOfTail(r[1..], s[1..], s[0]);
      assert [s[0]] + s[1..] == s;
    } else {
      SubseqDropFirst(r, s[1..]);
      SubseqOfTail(r[1..], s[1..], s[0]);
      assert [s[0]] + s[1..] == s;
    }
  }

  /** Array.prototype.filter: the elements of `s` satisfying `keep`, in order.
      Its contract says the result is an order-preserving subsequence of `s` that
      holds every element satisfying `keep` exactly as often as `s` does, and no
      other element. */
  function Filter<T(!new, ==)>(s: seq<T>, keep: T -> bool): (r: seq<T>)
    ensures |r| <= |s|
    ensures Subseq(r, s)
    ensures forall x :: x in r <==> x in s && keep(x)
    ensures forall x :: multiset(r)[x] == if keep(x) then multiset(s)[x] else 0
  {
    if s == [] then []
    else
      var rest := Filter(s[1..], keep);
      assert s == [s[0]] + s[1..];
      if keep(s[0]) then
        assert ([s[0]] + rest)[1..] == rest;
        [s[0]] + rest
      else
        SubseqOfTail(rest, s[1..], s[0]);
        rest
  }

  /** Filtering with predicates that agree on the input gives the same result. */
  lemma {:induction false} FilterCongruent<T(!new)>(s: seq<T>, keep1: T -> bool, keep2: T -> bool)
    requires forall x :: x in s ==> keep1(x) == keep2(x)
    ensures Filter(s, keep1) == Filter(s, keep2)
  {
    if s != [] {
      FilterCongruent(s[1..], keep1, keep2);
    }
  }

  // ---------------------------------------------------------------------------
  // Distinct elements

  predicate Distinct<T(==)>(s: seq<T>) {
    forall i, j :: 0 <= i < j < |s| ==> s[i] != s[j]
  }

  lemma DistinctAppend<T>(a: seq<T>, b: seq<T>)
    requires Distinct(a + b)
    ensures Distinct(a) && Distinct(b)
    ensures forall x :: x in a ==> x !in b
  {
    assert forall i :: 0 <= i < |a| ==> (a + b)[i] == a[i];
    assert forall j :: 0 <= j < |b| ==> (a + b)[|a| + j] == b[j];
  }

  // ---------------------------------------------------------------------------
  // Records: a JavaScript object used as a string-keyed dictionary. Writing an
  // existing key replaces its value in place; writing a new key appends it, so
  // Object.keys and Object.values follow first-insertion order.

  datatype Record<V> = Record(keys: seq<string>, values: map<string, V>) {

    ghost predicate Valid() {
      Distinct(keys) && (forall k :: k in values <==> k in keys)
    }

    /** `record[key] = value` */
    function Put(key: string, value: V): (r: Record<V>)
      requires Valid()
      ensures r.Valid()
      ensures r.values == values[key := value]
      ensures r.keys == if key in values then keys else keys + [key]
    {
      Record(if key in values then keys else keys + [key], values[key := value])
    }

    /** `record[key]`, undefined when absent */
    function Get(key: string): Option<V> {
      if key in values then Some(values[key]) else None
    }

    /** Object.values(record) */
    function Values(): (r: seq<V>)
      requires Valid()
      ensures |r| == |keys|
      ensures forall i :: 0 <= i < |keys| ==> r[i] == values[keys[i]]
    {
      seq(|keys|, i requires 0 <= i < |keys| => values[keys[i]])
    }
  }

  /** Two maps with the same keys and the same value at every key are equal. */
  lemma MapsEqual<K, V>(a: map<K, V>, b: map<K, V>)
    requires a.Keys == b.Keys
    requires forall k :: k in a ==> a[k] == b[k]
    ensures a == b
  {
  }

  function EmptyRecord<V>(): (r: Record<V>)
    ensures r.Valid() && r.keys == [] && r.values == map[]
  {
    Record([], map[])
  }
}
