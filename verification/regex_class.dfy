/** The two regular-expression shapes the validators use: a bracketed
    character class searched anywhere in a string (`/[...]/.test(s)`) and
    one that must cover the whole, non-empty string (`/^[...]+$/.test(s)`).
    Class bodies are parsed the way JavaScript reads them when they hold
    no escapes and no leading `^`: `x-y` is a range, and a `-` that cannot
    be the middle of a range is an ordinary character.
 */
module RegexClass {

  datatype ClassItem = Single(c: char) | Span(lo: char, hi: char)

  predicate ItemMatches(item: ClassItem, c: char) {
    match item
    case Single(d) => c == d
    case Span(lo, hi) => lo <= c <= hi
  }

  /** The items of a class body, left to right. The contract only bounds
      their number; what the items of each body the schemas use mean is
      stated by `RangeClass`, `SinglesClass` and `WordClass`. */
  function ParseClass(body: string): (items: seq<ClassItem>)
    ensures |items| <= |body|
  {
    if |body| == 0 then []
    else if |body| >= 3 && body[1] == '-' then [Span(body[0], body[2])] + ParseClass(body[3..])
    else [Single(body[0])] + ParseClass(body[1..])
  }

  predicate InClass(items: seq<ClassItem>, c: char) {
    exists k | 0 <= k < |items| :: ItemMatches(items[k], c)
  }

  /** `/[items]/.test(s)`: the engine scans left to right for one matching character. */
  function Test(items: seq<ClassItem>, s: string): (found: bool)
    ensures found <==> exists i | 0 <= i < |s| :: InClass(items, s[i])
  {
    if |s| == 0 then false
    else if InClass(items, s[0]) then true
    else
      var found := Test(items, s[1..]);
      assert forall i | 1 <= i < |s| :: s[i] == s[1..][i - 1];
      found
  }

  /** `/^[items]+$/.test(s)` without the multiline flag: `$` only matches at the very end. */
  function FullMatch(items: seq<ClassItem>, s: string): (ok: bool)
    ensures ok <==> |s| > 0 && forall i | 0 <= i < |s| :: InClass(items, s[i])
  {
    if |s| == 0 then false
    else if !InClass(items, s[0]) then false
    else if |s| == 1 then true
    else
      var ok := FullMatch(items, s[1..]);
      assert forall i | 1 <= i < |s| :: s[i] == s[1..][i - 1];
      ok
  }

  /** A three-character body `lo-hi` (`[A-Z]`, `[a-z]`, `[0-9]`) is one
      range: it holds exactly the characters from `lo` to `hi`. */
  lemma RangeClass(lo: char, hi: char, c: char)
    ensures InClass(ParseClass([lo, '-', hi]), c) <==> lo <= c <= hi
  {
    var items := ParseClass([lo, '-', hi]);
    assert items == [Span(lo, hi)];
    assert InClass(items, c) <==> ItemMatches(items[0], c);
  }

  /** A body with no `-` strictly inside it holds no range: it parses to
      one single-character item per character. */
  lemma {:induction false} NoRangeParsesToSingles(body: string)
    requires forall i | 1 <= i < |body| - 1 :: body[i] != '-'
    ensures |ParseClass(body)| == |body|
    ensures forall i | 0 <= i < |body| :: ParseClass(body)[i] == Single(body[i])
    decreases |body|
  {
    if |body| > 0 {
      assert forall i | 1 <= i < |body[1..]| - 1 :: body[1..][i] == body[i + 1];
      NoRangeParsesToSingles(body[1..]);
      assert |body| >= 3 ==> body[1] != '-';
      assert ParseClass(body) == [Single(body[0])] + ParseClass(body[1..]);
    }
  }

  /** A class body with no `-` strictly inside matches exactly its own characters. */
  lemma SinglesClass(body: string, c: char)
    requires forall i | 1 <= i < |body| - 1 :: body[i] != '-'
    ensures InClass(ParseClass(body), c) <==> c in body
  {
    NoRangeParsesToSingles(body);
    var items := ParseClass(body);
    if c in body {
      var k :| 0 <= k < |body| && body[k] == c;
      assert ItemMatches(items[k], c);
    }
    if InClass(items, c) {
      var k :| 0 <= k < |items| && ItemMatches(items[k], c);
      assert body[k] == c;
    }
  }

  /** In `[#?!@$%^&*-]` every character stands for itself: the `^` is not
      first and the trailing `-` has nothing after it, so neither is special. */
  lemma SpecialClass(c: char)
    ensures InClass(ParseClass("#?!@$%^&*-"), c) <==> c in "#?!@$%^&*-"
  {
    var body := "#?!@$%^&*-";
    assert forall i | 1 <= i < |body| - 1 :: body[i] != '-' by {
      assert body[1..9] == "?!@$%^&*";
      assert '-' !in body[1..9];
    }
    SinglesClass(body, c);
  }

  /** `[a-zA-Z0-9_]` holds exactly the ASCII letters, the digits and `_`. */
  lemma WordClass(c: char)
    ensures InClass(ParseClass("a-zA-Z0-9_"), c)
        <==> ('a' <= c <= 'z') || ('A' <= c <= 'Z') || ('0' <= c <= '9') || c == '_'
  {
    var items := [Span('a', 'z'), Span('A', 'Z'), Span('0', '9'), Single('_')];
    assert ParseClass("a-zA-Z0-9_") == items;
    if 'a' <= c <= 'z' { assert ItemMatches(items[0], c); }
    else if 'A' <= c <= 'Z' { assert ItemMatches(items[1], c); }
    else if '0' <= c <= '9' { assert ItemMatches(items[2], c); }
    else if c == '_' { assert ItemMatches(items[3], c); }
  }
}
