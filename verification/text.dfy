/** Splitting a string on a single delimiter character, as Kotlin's
    `String.split(".")` does with a literal (non-regex) delimiter and no
    limit: every delimiter ends a piece, and empty pieces at the start, at
    the end and between adjacent delimiters are all kept. `Join` is its
    inverse. */
module Text {

  /** Number of occurrences of `d` in `s`. */
  function Count(s: string, d: char): (n: nat)
    ensures n <= |s|
    ensures n == 0 <==> d !in s
  {
    if s == [] then 0 else (if s[0] == d then 1 else 0) + Count(s[1..], d)
  }

  /** The pieces of `s` between occurrences of `d`, in order. There is one
      more piece than there are delimiters, and no piece holds a delimiter. */
  function Split(s: string, d: char): (r: seq<string>)
    ensures |r| == Count(s, d) + 1
    ensures forall i :: 0 <= i < |r| ==> d !in r[i]
  {
    if s == [] then [""]
    else
      var tail := Split(s[1..], d);
      if s[0] == d then [""] + tail
      else [[s[0]] + tail[0]] + tail[1..]
  }

  /** The pieces joined back together with `d` between neighbours. */
  function Join(parts: seq<string>, d: char): (s: string)
  {
    if |parts| == 0 then ""
    else if |parts| == 1 then parts[0]
    else parts[0] + [d] + Join(parts[1..], d)
  }

  /** Joining the pieces of a split restores the input. */
  lemma {:induction false} JoinSplit(s: string, d: char)
    ensures Join(Split(s, d), d) == s
  {
    if s != [] {
      var tail := Split(s[1..], d);
      JoinSplit(s[1..], d);
      if s[0] == d {
        assert Split(s, d) == [""] + tail;
        assert ([""] + tail)[1..] == tail;
      } else {
        JoinHead([s[0]], tail, d);
      }
      assert s == [s[0]] + s[1..];
    }
  }

  /** Prepending to the first piece prepends to the joined string. */
  lemma JoinHead(p: string, parts: seq<string>, d: char)
    requires |parts| >= 1
    ensures Join([p + parts[0]] + parts[1..], d) == p + Join(parts, d)
  {
    var q := [p + parts[0]] + parts[1..];
    assert q[1..] == parts[1..];
  }

  /** A character other than the delimiter joins the first piece. */
  lemma SplitCons(c: char, t: string, d: char)
    requires c != d
    ensures Split([c] + t, d) == [[c] + Split(t, d)[0]] + Split(t, d)[1..]
  {
    assert ([c] + t)[1..] == t;
  }

  lemma ConsConcat(p: string, x: string)
    requires |p| > 0
    ensures [p[0]] + (p[1..] + x) == p + x
  {
    assert [p[0]] + p[1..] == p;
  }

  /** A delimiter-free prefix belongs to the first piece. */
  lemma {:induction false} SplitPrefix(p: string, t: string, d: char)
    requires d !in p
    ensures Split(p + t, d) == [p + Split(t, d)[0]] + Split(t, d)[1..]
  {
    var r := Split(t, d);
    if p == [] {
      assert p + t == t && p + r[0] == r[0];
      assert [r[0]] + r[1..] == r;
    } else {
      var rest := p[1..] + t;
      var q := Split(rest, d);
      SplitPrefix(p[1..], t, d);
      SplitCons(p[0], rest, d);
      ConsConcat(p, t);
      ConsConcat(p, r[0]);
      var head := [p[0]] + q[0];
      assert head == p + r[0];
      assert Split(p + t, d) == [head] + q[1..];
    }
  }

  /** A leading delimiter ends an empty first piece. */
  lemma SplitAtDelimiter(t: string, d: char)
    ensures Split([d] + t, d) == [""] + Split(t, d)
  {
    assert ([d] + t)[1..] == t;
  }

  /** Splitting a join of delimiter-free pieces gives the pieces back. */
  lemma {:induction false} SplitJoin(parts: seq<string>, d: char)
    requires |parts| >= 1
    requires forall i :: 0 <= i < |parts| ==> d !in parts[i]
    ensures Split(Join(parts, d), d) == parts
  {
    if |parts| == 1 {
      SplitPrefix(parts[0], "", d);
      assert parts[0] + "" == parts[0];
    } else {
      var rest := Join(parts[1..], d);
      SplitJoin(parts[1..], d);
      SplitAtDelimiter(rest, d);
      SplitPrefix(parts[0], [d] + rest, d);
      assert Join(parts, d) == parts[0] + ([d] + rest);
      assert Split(Join(parts, d), d) == [parts[0] + ""] + parts[1..];
      assert parts[0] + "" == parts[0];
      assert parts == [parts[0]] + parts[1..];
    }
  }
}
