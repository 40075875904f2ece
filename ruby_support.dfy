/**
 * The two library behaviours of Ruby and ActiveSupport that the slug code relies on:
 * `blank?` on a nil-or-String value, and `Array#uniq!`, which keeps the first
 * occurrence of every element.
 */
module RubySupport {
  import opened Wrappers

  /** The characters `[[:space:]]` matches in a Ruby String: the Unicode White_Space set. */
  predicate IsSpace(c: char) {
    || c == ' '
    || '\t' <= c <= '\r'
    || c == '\U{0085}'
    || c == '\U{00A0}'
    || c == '\U{1680}'
    || '\U{2000}' <= c <= '\U{200A}'
    || c == '\U{2028}'
    || c == '\U{2029}'
    || c == '\U{202F}'
    || c == '\U{205F}'
    || c == '\U{3000}'
  }

  /** `blank?`: nil is blank, and so is a String made of white space only (the empty one included). */
  predicate Blank(v: Option<string>)
    ensures v == None || v == Some("") ==> Blank(v)
    ensures !Blank(v) <==> v.Some? && exists i :: 0 <= i < |v.value| && !IsSpace(v.value[i])
  {
    match v
    case None => true
    case Some(s) => forall i :: 0 <= i < |s| ==> IsSpace(s[i])
  }

  /** White space of any kind is blank; one other character anywhere makes a String non-blank. */
  lemma BlankExamples()
    ensures Blank(Some(" \t\r\n\U{00A0}\U{3000}"))
    ensures !Blank(Some("  a "))
  {
    assert !IsSpace("  a "[2]);
  }

  predicate NoDuplicates<T(==)>(s: seq<T>) {
    forall i, j :: 0 <= i < j < |s| ==> s[i] != s[j]
  }

  /** Position of the first occurrence of `x` in `s`. */
  function IndexOf<T(==)>(s: seq<T>, x: T): (k: nat)
    requires x in s
    ensures k < |s| && s[k] == x
    ensures forall j :: 0 <= j < k ==> s[j] != x
  {
    if s[0] == x then 0 else 1 + IndexOf(s[1..], x)
  }

  /**
   * `uniq!` on an Array: every later repetition of an element is dropped.
   * Defined element by element from the left, as the array is scanned.
   */
  function Uniq<T(==,!new)>(s: seq<T>): (r: seq<T>)
    ensures NoDuplicates(r)
    ensures forall x :: x in r <==> x in s
    ensures |r| <= |s|
    decreases |s|
  {
    if s == [] then []
    else
      var p := Uniq(s[..|s| - 1]);
      if s[|s| - 1] in p then p else p + [s[|s| - 1]]
  }

  /** An array without repetitions is left as it is. */
  lemma {:induction false} UniqOfDistinct<T(!new)>(s: seq<T>)
    requires NoDuplicates(s)
    ensures Uniq(s) == s
    decreases |s|
  {
    if s != [] {
      var init := s[..|s| - 1];
      assert NoDuplicates(init);
      UniqOfDistinct(init);
      assert s[|s| - 1] !in init;
      assert init + [s[|s| - 1]] == s;
    }
  }

  /** Appending to an array without repetitions and then calling `uniq!`. */
  lemma UniqAppendToDistinct<T(!new)>(s: seq<T>, x: T)
    requires NoDuplicates(s)
    ensures Uniq(s + [x]) == if x in s then s else s + [x]
  {
    var t := s + [x];
    assert t[..|t| - 1] == s;
    UniqOfDistinct(s);
  }

  /** What is already de-duplicated is never reordered by later elements. */
  lemma {:induction false} UniqPrefix<T(!new)>(s: seq<T>, t: seq<T>)
    ensures Uniq(s) <= Uniq(s + t)
    decreases |t|
  {
    if t == [] {
      assert s + t == s;
    } else {
      var u := s + t;
      var init := t[..|t| - 1];
      assert u[..|u| - 1] == s + init;
      UniqPrefix(s, init);
    }
  }

  lemma {:induction false} IndexOfAppend<T>(s: seq<T>, y: T, x: T)
    requires x in s
    ensures IndexOf(s + [y], x) == IndexOf(s, x)
  {
    if s[0] != x {
      assert (s + [y])[1..] == s[1..] + [y];
      IndexOfAppend(s[1..], y, x);
    }
  }

  /**
   * First occurrences win: the elements of `Uniq(s)` stand in the order of their
   * first occurrences in `s`.
   */
  lemma {:induction false} UniqKeepsFirstOccurrenceOrder<T(!new)>(s: seq<T>, i: nat, j: nat)
    requires i < j < |Uniq(s)|
    ensures Uniq(s)[i] in s && Uniq(s)[j] in s
    ensures IndexOf(s, Uniq(s)[i]) < IndexOf(s, Uniq(s)[j])
    decreases |s|
  {
    var r := Uniq(s);
    assert r[i] in r && r[j] in r;
    var init, y := s[..|s| - 1], s[|s| - 1];
    var p := Uniq(init);
    assert s == init + [y];
    assert p[i] in p;
    IndexOfAppend(init, y, p[i]);
    if j < |p| {
      UniqKeepsFirstOccurrenceOrder(init, i, j);
      assert p[j] in p;
      IndexOfAppend(init, y, p[j]);
    } else {
      assert y !in init && r[j] == y;
      assert IndexOf(s, y) == |init|;
    }
  }
}
