/**
 * The email pattern of the waitlist route, `/^[^\s@]+@[^\s@]+\.[^\s@]+$/`,
 * as a string predicate, and a character-level checker proved to accept
 * exactly the strings the pattern matches.
 */
module EmailSyntax {
  import opened Wrappers

  /**
   * The characters JavaScript's `\s` matches: the ECMAScript WhiteSpace and
   * LineTerminator characters (tab, line feed, vertical tab, form feed,
   * carriage return, space, no-break space, the Zs space separators, line and
   * paragraph separator, byte order mark).
   */
  predicate IsJsSpace(c: char) {
    var n := c as int;
    || (0x09 <= n <= 0x0D) || n == 0x20 || n == 0xA0 || n == 0x1680
    || (0x2000 <= n <= 0x200A) || n == 0x2028 || n == 0x2029 || n == 0x202F
    || n == 0x205F || n == 0x3000 || n == 0xFEFF
  }

  /** A character of the class `[^\s@]`. */
  predicate Plain(c: char) {
    !IsJsSpace(c) && c != '@'
  }

  ghost predicate PlainRun(s: string, lo: int, hi: int)
    requires 0 <= lo <= hi <= |s|
  {
    forall k :: lo <= k < hi ==> Plain(s[k])
  }

  /**
   * `s` reads as `[^\s@]+` `@` `[^\s@]+` `\.` `[^\s@]+`, with its '@' at
   * index `at` and the escaped '.' at index `dot`.
   */
  ghost predicate PatternSplit(s: string, at: int, dot: int) {
    && 0 < at && at + 1 < dot && dot + 1 < |s|
    && s[at] == '@' && s[dot] == '.'
    && PlainRun(s, 0, at) && PlainRun(s, at + 1, dot) && PlainRun(s, dot + 1, |s|)
  }

  /** The strings the anchored pattern matches. */
  ghost predicate MatchesEmailPattern(s: string) {
    exists at, dot :: PatternSplit(s, at, dot)
  }

  /** The index of the first '@'. */
  function FirstAt(s: string): (r: Option<nat>)
    ensures r.Some? ==> r.value < |s| && s[r.value] == '@' && forall k :: 0 <= k < r.value ==> s[k] != '@'
    ensures r.None? ==> forall k :: 0 <= k < |s| ==> s[k] != '@'
  {
    if s == [] then None
    else if s[0] == '@' then Some(0)
    else match FirstAt(s[1..])
      case None => None
      case Some(i) => Some(i + 1)
  }

  /** Every character is in `[^\s@]`. */
  function AllPlain(s: string): (b: bool)
    ensures b <==> forall k :: 0 <= k < |s| ==> Plain(s[k])
  {
    s == [] || (Plain(s[0]) && AllPlain(s[1..]))
  }

  /** Some character is '.'. */
  function HasDot(s: string): (b: bool)
    ensures b <==> exists k :: 0 <= k < |s| && s[k] == '.'
  {
    if s == [] then false
    else if s[0] == '.' then true
    else
      assert forall k :: 1 <= k < |s| ==> s[k] == s[1..][k - 1];
      HasDot(s[1..])
  }

  /**
   * The character-level check: split at the first '@'; the part before it
   * is non-empty, neither part holds whitespace or another '@', and the part
   * after it has a '.' that is neither its first nor its last character.
   */
  function IsValidEmail(s: string): bool
  {
    match FirstAt(s)
    case None => false
    case Some(at) =>
      var local, domain := s[..at], s[at + 1..];
      && at > 0
      && AllPlain(local)
      && AllPlain(domain)
      && |domain| >= 3
      && HasDot(domain[1..|domain| - 1])
  }

  /** The checker accepts exactly the strings the pattern matches. */
  lemma CheckerMatchesPattern(s: string)
    ensures IsValidEmail(s) <==> MatchesEmailPattern(s)
  {
    if IsValidEmail(s) {
      AcceptedMatches(s);
    }
    if MatchesEmailPattern(s) {
      var at, dot :| PatternSplit(s, at, dot);
      MatchAccepted(s, at, dot);
    }
  }

  /** Soundness of the checker: an accepted string splits as the pattern requires. */
  lemma AcceptedMatches(s: string)
    requires IsValidEmail(s)
    ensures MatchesEmailPattern(s)
  {
    var at := FirstAt(s).value;
    var domain := s[at + 1..];
    var inner := domain[1..|domain| - 1];
    var m :| 0 <= m < |inner| && inner[m] == '.';
    var dot := at + 2 + m;
    assert s[dot] == inner[m];
    assert forall k :: 0 <= k < at ==> s[k] == s[..at][k];
    assert forall k :: at + 1 <= k < |s| ==> s[k] == domain[k - at - 1];
    assert PatternSplit(s, at, dot);
  }

  /** Completeness of the checker: a string the pattern matches is accepted. */
  lemma MatchAccepted(s: string, at: int, dot: int)
    requires PatternSplit(s, at, dot)
    ensures IsValidEmail(s)
  {
    assert forall k :: 0 <= k < at ==> s[k] != '@';
    assert FirstAt(s) == Some(at);
    var local, domain := s[..at], s[at + 1..];
    assert AllPlain(local) by {
      assert forall k :: 0 <= k < |local| ==> local[k] == s[k];
    }
    assert AllPlain(domain) by {
      assert forall k :: 0 <= k < |domain| ==> domain[k] == s[at + 1 + k];
    }
    var inner := domain[1..|domain| - 1];
    assert inner[dot - at - 2] == s[dot];
    assert HasDot(inner);
  }

  /**
   * What every accepted string satisfies: no whitespace anywhere, exactly one
   * '@', and a non-empty part before it.
   */
  lemma AcceptedEmailShape(s: string)
    requires IsValidEmail(s)
    ensures forall k :: 0 <= k < |s| ==> !IsJsSpace(s[k])
    ensures multiset(s)['@'] == 1
    ensures s[0] != '@'
  {
    var at := FirstAt(s).value;
    var local, domain := s[..at], s[at + 1..];
    assert s == local + [s[at]] + domain;
    assert forall k :: 0 <= k < |s| ==> s[k] == s[at] || (k < at && s[k] == local[k]) || (k > at && s[k] == domain[k - at - 1]);
    assert '@' !in local;
    assert '@' !in domain;
    assert multiset(s) == multiset(local) + multiset{'@'} + multiset(domain);
  }
}
