/** The address scan of a result page (main.js lines 34-39): the global
    regular expression ['"]/address/(0x[0-9a-f]{40})['"]>0x run over the
    page's HTML text, and the do-while loop that logs the first capture
    group of every match. */
module Scanner {
  import opened Outcomes

  /** Every match of the expression is exactly this many characters long:
      a quote, "/address/", the 42-character address, a quote, ">0x". */
  const MatchLength: nat := 56

  predicate IsQuote(c: char) { c == '\'' || c == '"' }

  /** The character class [0-9a-f]: upper-case hex digits are not in it. */
  predicate IsLowerHexDigit(c: char) { '0' <= c <= '9' || 'a' <= c <= 'f' }

  /** The capture group 0x[0-9a-f]{40}. */
  predicate IsAddress(a: string)
  {
    && |a| == 42
    && a[0] == '0' && a[1] == 'x'
    && forall k :: 2 <= k < 42 ==> IsLowerHexDigit(a[k])
  }

  /** The expression matches the text that starts at position i. */
  predicate MatchAt(s: string, i: nat)
  {
    && i + MatchLength <= |s|
    && IsQuote(s[i])
    && s[i + 1..i + 10] == "/address/"
    && IsAddress(s[i + 10..i + 52])
    && IsQuote(s[i + 52])
    && s[i + 53..i + 56] == ">0x"
  }

  /** The first capture group of the match at position i. */
  function Captured(s: string, i: nat): string
    requires i + MatchLength <= |s|
  {
    s[i + 10..i + 52]
  }

  /** No match can start strictly inside another one: the only quotes a
      match holds are its first and its 53rd character, and the latter is
      followed by '>' rather than '/'. */
  lemma NoMatchInside(s: string, i: nat, j: nat)
    requires MatchAt(s, i) && i < j
    ensures j < i + MatchLength ==> !MatchAt(s, j)
  {
    if j < i + MatchLength && j + MatchLength <= |s| {
      var d := j - i;
      if d < 10 {
        assert s[j] == s[i + 1..i + 10][d - 1];
      } else if d < 52 {
        assert s[j] == s[i + 10..i + 52][d - 10];
      } else if d == 52 {
        assert s[j + 1] == s[i + 53..i + 56][0];
        assert s[j + 1] == s[j + 1..j + 10][0];
      } else {
        assert s[j] == s[i + 53..i + 56][d - 53];
      }
    }
  }

  /** The search that one call of the match iterator performs: the leftmost
      match starting at or after `from` (the expression's lastIndex). */
  function FindMatch(s: string, from: nat): (r: Option<nat>)
    ensures r.Some? ==> from <= r.value && MatchAt(s, r.value)
    ensures r.Some? ==> forall j :: from <= j < r.value ==> !MatchAt(s, j)
    ensures r.None? ==> forall j :: from <= j ==> !MatchAt(s, j)
    decreases |s| - from
  {
    if |s| < from + MatchLength then None
    else if MatchAt(s, from) then Some(from)
    else FindMatch(s, from + 1)
  }

  /** Start positions of the matches that a global match-all yields from
      `from` on: each search resumes where the previous match ended. */
  function MatchPositions(s: string, from: nat): (ps: seq<nat>)
    ensures forall k :: 0 <= k < |ps| ==> from <= ps[k] && MatchAt(s, ps[k])
    ensures forall a, b :: 0 <= a < b < |ps| ==> ps[a] + MatchLength <= ps[b]
    decreases |s| - from
  {
    match FindMatch(s, from)
    case None => []
    case Some(p) => [p] + MatchPositions(s, p + MatchLength)
  }

  /** The values the scan logs, from position `from` on. */
  function AddressesFrom(s: string, from: nat): seq<string>
    decreases |s| - from
  {
    match FindMatch(s, from)
    case None => []
    case Some(p) => [Captured(s, p)] + AddressesFrom(s, p + MatchLength)
  }

  /** The values logged are the captures at the match positions, rank by rank. */
  lemma {:induction false} AddressesAtPositions(s: string, from: nat)
    ensures var ps := MatchPositions(s, from);
      && |AddressesFrom(s, from)| == |ps|
      && forall k :: 0 <= k < |ps| ==> AddressesFrom(s, from)[k] == Captured(s, ps[k])
    decreases |s| - from
  {
    match FindMatch(s, from)
    case None =>
    case Some(p) =>
      AddressesAtPositions(s, p + MatchLength);
  }

  /** A search that starts on a match finds that match. */
  lemma FindMatchAtMatch(s: string, p: nat)
    requires MatchAt(s, p)
    ensures FindMatch(s, p) == Some(p)
  {
  }

  /** One step of the scan: a match found from `from` on is logged before
      everything that follows it. */
  lemma AddressesFromStep(s: string, from: nat, p: nat)
    requires FindMatch(s, from) == Some(p)
    ensures AddressesFrom(s, from) == [Captured(s, p)] + AddressesFrom(s, p + MatchLength)
  {
  }

  /** The addresses logged for one page of HTML. */
  function Addresses(html: string): seq<string>
  {
    AddressesFrom(html, 0)
  }

  /** Every match is found: a position starts a match exactly when it is
      one of the positions the scan visits, so no match is skipped. */
  lemma {:induction false} MatchPositionsComplete(s: string, from: nat, j: nat)
    requires from <= j
    ensures j in MatchPositions(s, from) <==> MatchAt(s, j)
    decreases |s| - from
  {
    match FindMatch(s, from)
    case None =>
    case Some(p) =>
      if j != p && MatchAt(s, j) {
        NoMatchInside(s, p, j);
        MatchPositionsComplete(s, p + MatchLength, j);
      }
  }

  /** What the scan of a page logs: one value per match, in document
      order, each a lower-case address; and a position starts a match
      exactly when its capture is among the logged values at that rank. */
  lemma ScanLogsEveryMatch(html: string)
    ensures var ps := MatchPositions(html, 0);
      && |Addresses(html)| == |ps|
      && (forall a, b :: 0 <= a < b < |ps| ==> ps[a] < ps[b])
      && (forall k :: 0 <= k < |ps| ==> Addresses(html)[k] == Captured(html, ps[k]) && IsAddress(Addresses(html)[k]))
      && (forall j: nat :: j in ps <==> MatchAt(html, j))
  {
    AddressesAtPositions(html, 0);
    forall j: nat ensures j in MatchPositions(html, 0) <==> MatchAt(html, j) {
      MatchPositionsComplete(html, 0, j);
    }
  }

  /** The emit loop of main.js lines 35-39: take the iterator's first
      result; if the iterator is already done, the page is exhausted;
      otherwise log the capture and advance until the iterator is done.
      `lastIndex` is where the expression's next search starts. */
  method EmitPage(html: string) returns (logged: seq<string>, exhausted: bool)
    ensures logged == Addresses(html)
    ensures exhausted <==> logged == []
  {
    logged := [];
    var lastIndex := 0;
    var next := FindMatch(html, lastIndex);
    exhausted := next.None?;
    if exhausted {
      return;
    }
    while next.Some?
      invariant next == FindMatch(html, lastIndex)
      invariant Addresses(html) == logged + AddressesFrom(html, lastIndex)
      invariant lastIndex == 0 || logged != []
      decreases |html| - lastIndex
    {
      var value := next.value;
      ghost var before, from := logged, lastIndex;
      logged := logged + [Captured(html, value)];
      lastIndex := value + MatchLength;
      next := FindMatch(html, lastIndex);
      assert AddressesFrom(html, from) == [Captured(html, value)] + AddressesFrom(html, lastIndex);
      assert before + AddressesFrom(html, from) == logged + AddressesFrom(html, lastIndex);
    }
  }
}
