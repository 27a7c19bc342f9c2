/** Searching character strings as std::string does. */
module Text {
  import opened ByteStrings

  /** string::npos: as an unsigned number, adding 3 to it wraps to 2, and so does -1 + 3. */
  const NPOS := -1

  /** isspace in the C locale. */
  predicate IsSpace(c: char) { c == ' ' || 9 <= c as int <= 13 }

  /** Blank, tab, line feed, vertical tab, form feed and carriage return. */
  lemma SpaceCharacters(c: char)
    ensures IsSpace(c) <==> c as int in {32, 9, 10, 11, 12, 13}
  {
  }

  /** pattern stands in s at index i. */
  predicate At(s: string, pattern: string, i: int)
  {
    0 <= i && i + |pattern| <= |s| && s[i..i + |pattern|] == pattern
  }

  /** string::find: the first place at or after start. */
  function Find(s: string, pattern: string, start: nat): (r: int)
    ensures r == NPOS || (start <= r && At(s, pattern, r))
    ensures forall i :: start <= i && At(s, pattern, i) ==> r != NPOS && r <= i
    decreases |s| - start
  {
    if start + |pattern| > |s| then NPOS
    else if s[start..start + |pattern|] == pattern then start
    else if start == |s| then NPOS
    else Find(s, pattern, start + 1)
  }

  /** string::rfind of one character: the last place. */
  function RFind(s: string, c: char): (r: int)
    ensures r == NPOS || (0 <= r < |s| && s[r] == c)
    ensures forall i :: r < i < |s| ==> s[i] != c
  {
    if s == "" then NPOS else if s[|s| - 1] == c then |s| - 1 else RFind(s[..|s| - 1], c)
  }

  lemma FindNone(s: string, c: char, start: nat)
    requires start <= |s| && c !in s[start..]
    ensures Find(s, [c], start) == NPOS
  {
    forall i | start <= i < |s| ensures !At(s, [c], i) {
      assert s[i..i + 1][0] == s[start..][i - start];
      assert [c][0] == c;
    }
  }

  /** s up to the first c, and what follows that c if there is one. */
  function Cut(s: string, c: char): (r: (string, Option<string>))
    ensures r.1.Some? ==> |r.1.value| < |s|
  {
    if s == "" then ("", None)
    else if s[0] == c then ("", Some(s[1..]))
    else
      var (head, tail) := Cut(s[1..], c);
      ([s[0]] + head, tail)
  }

  lemma {:induction false} CutPrefix(a: string, s: string, c: char)
    requires c !in a
    ensures Cut(a + s, c) == (a + Cut(s, c).0, Cut(s, c).1)
  {
    if a == "" {
      assert a + s == s && a + Cut(s, c).0 == Cut(s, c).0;
    } else {
      CutPrefix(a[1..], s, c);
      assert (a + s)[1..] == a[1..] + s && (a + s)[0] == a[0];
      assert a + Cut(s, c).0 == [a[0]] + (a[1..] + Cut(s, c).0);
    }
  }

  lemma CutJoined(a: string, c: char, b: string)
    requires c !in a
    ensures Cut(a + [c] + b, c) == (a, Some(b))
  {
    var s := [c] + b;
    CutPrefix(a, s, c);
    assert s[0] == c && s[1..] == b && a + s == a + [c] + b && a + "" == a;
  }

  lemma CutWhole(a: string, c: char)
    requires c !in a
    ensures Cut(a, c) == (a, None)
  {
    CutPrefix(a, "", c);
    assert a + "" == a;
  }

  /** Searching from an index and cutting the rest of the string give the same pieces. */
  lemma CutFound(s: string, c: char, start: nat)
    requires start <= |s|
    ensures var r := Find(s, [c], start);
            Cut(s[start..], c) == if r == NPOS then (s[start..], None) else (s[start..r], Some(s[r + 1..]))
  {
    var r := Find(s, [c], start);
    if r == NPOS {
      forall i | start <= i < |s| ensures s[i] != c {
        assert s[i] == c ==> At(s, [c], i);
      }
      CutWhole(s[start..], c);
    } else {
      assert s[r] == c by { assert s[r..r + 1][0] == s[r]; }
      forall i | start <= i < r ensures s[i] != c {
        assert s[i] == c ==> At(s, [c], i);
      }
      assert s[start..] == s[start..r] + [c] + s[r + 1..];
      CutJoined(s[start..r], c, s[r + 1..]);
    }
  }
}
