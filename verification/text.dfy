/** Character classes and string helpers over ASCII text. */
module Text {

  /** Rust's `char::is_whitespace` restricted to ASCII: space and `\t` .. `\r`. */
  predicate IsWhitespace(c: char) {
    c == ' ' || ('\t' <= c <= '\r')
  }

  /** Rust's `char::is_alphanumeric` restricted to ASCII. */
  predicate IsAlphanumeric(c: char) {
    ('a' <= c <= 'z') || ('A' <= c <= 'Z') || ('0' <= c <= '9')
  }

  /** Rust's `char::is_uppercase` restricted to ASCII. */
  predicate IsUpper(c: char) {
    'A' <= c <= 'Z'
  }

  predicate IsDigit(c: char) {
    '0' <= c <= '9'
  }

  /** `s[i..].starts_with(c)` for a single character. */
  predicate CharAt(s: string, i: nat, c: char) {
    i < |s| && s[i] == c
  }

  /** `s[i..].starts_with(p)` */
  predicate StartsAt(s: string, i: nat, p: string) {
    i + |p| <= |s| && s[i..i + |p|] == p
  }

  function DigitChar(d: nat): (c: char)
    requires d < 10
    ensures IsDigit(c)
  {
    ['0', '1', '2', '3', '4', '5', '6', '7', '8', '9'][d]
  }

  /** Decimal rendering of a counter value, as `format!("{}", n)` prints it. */
  function NatToString(n: nat): (s: string)
    ensures |s| > 0
    ensures forall i :: 0 <= i < |s| ==> IsDigit(s[i])
    decreases n
  {
    if n < 10 then [DigitChar(n)] else NatToString(n / 10) + [DigitChar(n % 10)]
  }

  lemma DigitCharInjective(a: nat, b: nat)
    requires a < 10 && b < 10 && DigitChar(a) == DigitChar(b)
    ensures a == b
  {
  }

  /** Distinct counter values print differently, so names built from them are distinct. */
  lemma {:induction false} NatToStringInjective(n: nat, m: nat)
    requires NatToString(n) == NatToString(m)
    ensures n == m
    decreases n
  {
    var s := NatToString(n);
    if n < 10 && m < 10 {
      DigitCharInjective(n, m);
    } else if n >= 10 && m >= 10 {
      var a, b := NatToString(n / 10), NatToString(m / 10);
      assert s == a + [DigitChar(n % 10)] && s == b + [DigitChar(m % 10)];
      assert s[|s| - 1] == DigitChar(n % 10) == DigitChar(m % 10);
      DigitCharInjective(n % 10, m % 10);
      assert a == s[..|s| - 1] == b;
      NatToStringInjective(n / 10, m / 10);
    } else {
      // one side has a single digit, the other at least two: the lengths differ
      assert false;
    }
  }

  /** `parts.join(sep)` */
  function Join(parts: seq<string>, sep: string): string
  {
    if |parts| == 0 then ""
    else if |parts| == 1 then parts[0]
    else parts[0] + sep + Join(parts[1..], sep)
  }

  /** The pieces of `s` between single spaces: `s.split(" ")`. */
  function SplitSpace(s: string): (r: seq<string>)
    ensures |r| > 0
    ensures forall i :: 0 <= i < |r| ==> ' ' !in r[i]
    decreases |s|
  {
    if s == [] then [""]
    else
      var rest := SplitSpace(s[1..]);
      if s[0] == ' ' then [""] + rest
      else [[s[0]] + rest[0]] + rest[1..]
  }

  /** Putting a character in front of the first piece puts it in front of the joined text. */
  lemma JoinFront(c: char, first: string, rest: seq<string>, sep: string)
    ensures Join([[c] + first] + rest, sep) == [c] + Join([first] + rest, sep)
  {
    if |rest| > 0 {
      assert ([[c] + first] + rest)[1..] == rest;
      assert ([first] + rest)[1..] == rest;
    }
  }

  /** Joining the pieces back with single spaces gives the text that was split. */
  lemma {:induction false} SplitSpaceJoin(s: string)
    ensures Join(SplitSpace(s), " ") == s
    decreases |s|
  {
    if s != [] {
      var rest := SplitSpace(s[1..]);
      SplitSpaceJoin(s[1..]);
      if s[0] == ' ' {
        assert ([""] + rest)[1..] == rest;
      } else {
        assert [rest[0]] + rest[1..] == rest;
        JoinFront(s[0], rest[0], rest[1..], " ");
      }
    }
  }

  /** The non-empty pieces of `s` in order: `.filter(|s| s.len() != 0)`. */
  function NonEmpty(parts: seq<string>): (r: seq<string>)
    ensures forall i :: 0 <= i < |r| ==> r[i] != "" && r[i] in parts
    ensures forall p :: p in parts && p != "" ==> p in r
  {
    if parts == [] then []
    else if parts[0] == "" then NonEmpty(parts[1..])
    else [parts[0]] + NonEmpty(parts[1..])
  }

  /**
   * Filtering distributes over concatenation and keeps exactly the
   * non-empty single pieces, so it keeps every non-empty piece, in order
   * and as often as it occurs.
   */
  lemma {:induction false} NonEmptyAppend(a: seq<string>, b: seq<string>)
    ensures NonEmpty(a + b) == NonEmpty(a) + NonEmpty(b)
    decreases |a|
  {
    if a == [] {
      assert a + b == b;
    } else {
      assert (a + b)[0] == a[0] && (a + b)[1..] == a[1..] + b;
      NonEmptyAppend(a[1..], b);
    }
  }

  lemma NonEmptySingle(x: string)
    ensures NonEmpty([]) == [] && NonEmpty([x]) == if x == "" then [] else [x]
  {
    assert [x][1..] == [];
  }

  /** Keeps only the first of each run of equal neighbours (Rust's `Vec::dedup`). */
  function Dedup(s: seq<string>): (r: seq<string>)
    ensures |r| <= |s|
    ensures forall x :: x in r <==> x in s
    ensures |s| > 0 ==> |r| > 0 && r[0] == s[0]
    ensures forall i :: 0 <= i < |r| - 1 ==> r[i] != r[i + 1]
  {
    if |s| <= 1 then s
    else if s[0] == s[1] then Dedup(s[1..])
    else [s[0]] + Dedup(s[1..])
  }

  /** No two neighbours are equal. */
  predicate NoAdjacentRepeats(s: seq<string>) {
    forall i :: 0 <= i < |s| - 1 ==> s[i] != s[i + 1]
  }

  /** The number of positions whose right neighbour equals them. */
  function AdjacentRepeats(s: seq<string>): nat
    decreases |s|
  {
    if |s| <= 1 then 0
    else (if s[0] == s[1] then 1 else 0) + AdjacentRepeats(s[1..])
  }

  /**
   * Only neighbouring repeats go: a list without them is kept as it is
   * (so a value repeated further apart stays), and exactly one element
   * goes per neighbouring repeat.
   */
  lemma {:induction false} DedupRemovesOnlyNeighbours(s: seq<string>)
    ensures NoAdjacentRepeats(s) ==> Dedup(s) == s
    ensures |Dedup(s)| == |s| - AdjacentRepeats(s)
    decreases |s|
  {
    if |s| > 1 {
      DedupRemovesOnlyNeighbours(s[1..]);
      if NoAdjacentRepeats(s) {
        assert NoAdjacentRepeats(s[1..]) by {
          forall i | 0 <= i < |s[1..]| - 1
            ensures s[1..][i] != s[1..][i + 1]
          {
            assert s[1..][i] == s[i + 1] && s[1..][i + 1] == s[i + 2];
          }
        }
        assert s[0] != s[1];
        assert [s[0]] + s[1..] == s;
      }
    }
  }

  /** Removing neighbouring repeats twice removes nothing more. */
  lemma DedupIdempotent(s: seq<string>)
    ensures Dedup(Dedup(s)) == Dedup(s)
  {
    DedupRemovesOnlyNeighbours(Dedup(s));
  }

  /** The pieces of `s` between single whitespace characters. */
  function SplitWhitespace(s: string): (r: seq<string>)
    ensures |r| > 0
    decreases |s|
  {
    if s == [] then [""]
    else
      var rest := SplitWhitespace(s[1..]);
      if IsWhitespace(s[0]) then [""] + rest
      else [[s[0]] + rest[0]] + rest[1..]
  }

  predicate NoWhitespace(s: string) {
    forall i :: 0 <= i < |s| ==> !IsWhitespace(s[i])
  }

  /** A word, then a whitespace character, then more text: the word is the first piece. */
  lemma {:induction false} SplitWhitespaceWord(t: string, w: char, rest: string)
    requires NoWhitespace(t) && IsWhitespace(w)
    ensures SplitWhitespace(t + [w] + rest) == [t] + SplitWhitespace(rest)
    ensures SplitWhitespace(t) == [t]
    decreases |t|
  {
    if t == [] {
      assert [] + [w] + rest == [w] + rest && ([w] + rest)[1..] == rest;
    } else {
      SplitWhitespaceWord(t[1..], w, rest);
      assert (t + [w] + rest)[1..] == t[1..] + [w] + rest;
      assert [t[0]] + t[1..] == t;
    }
  }
}
