/**
 * The e-mail shape rule of the contact endpoint: the regular expression
 * `^[^\s@]+@[^\s@]+\.[^\s@]+$`, given three ways and proved equal:
 *  - RegexMatches: the pattern read literally, one split point per `+`-run;
 *  - IsValidEmail: a character-by-character automaton (what the handler uses);
 *  - EmailShape:   a structural description (one `@`, no white space,
 *                  non-empty local part, an inner `.` in the domain).
 */
module Email {

  /** ECMAScript `\s`: the WhiteSpace and LineTerminator code points. */
  predicate IsWs(c: char) {
    var n := c as int;
    n == 0x09 || n == 0x0A || n == 0x0B || n == 0x0C || n == 0x0D || n == 0x20 ||
    n == 0xA0 || n == 0x1680 || (0x2000 <= n <= 0x200A) || n == 0x2028 ||
    n == 0x2029 || n == 0x202F || n == 0x205F || n == 0x3000 || n == 0xFEFF
  }

  /** The character class `[^\s@]`. */
  predicate InClass(c: char) {
    !IsWs(c) && c != '@'
  }

  predicate AllInClass(t: string) {
    forall k :: 0 <= k < |t| ==> InClass(t[k])
  }

  // ---------------------------------------------------------------------------
  // The pattern read literally

  /** `[^\s@]+\.[^\s@]+`, anchored on both sides. */
  ghost predicate DomainMatches(d: string) {
    exists j :: 0 < j < |d| - 1 && d[j] == '.' && AllInClass(d[..j]) && AllInClass(d[j + 1..])
  }

  /** `^[^\s@]+@[^\s@]+\.[^\s@]+$` */
  ghost predicate RegexMatches(s: string) {
    exists i :: 0 < i < |s| && s[i] == '@' && AllInClass(s[..i]) && DomainMatches(s[i + 1..])
  }

  // ---------------------------------------------------------------------------
  // The recogniser

  /**
   * States of the recogniser: Local has read a non-empty local part, AtSign
   * the `@`, Host a non-empty domain prefix with no `.` after its first
   * character, Dot such a `.`, Tld at least one character after it.
   */
  datatype State = Start | Local | AtSign | Host | Dot | Tld | Reject

  function Step(q: State, c: char): State {
    if !InClass(c) then
      if c == '@' && q == Local then AtSign else Reject
    else
      match q
      case Start => Local
      case Local => Local
      case AtSign => Host
      case Host => if c == '.' then Dot else Host
      case Dot => Tld
      case Tld => Tld
      case Reject => Reject
  }

  function Run(q: State, s: string): State
    decreases |s|
  {
    if s == [] then q else Run(Step(q, s[0]), s[1..])
  }

  // ---------------------------------------------------------------------------
  // The structural description

  function Count(s: string, c: char): (n: nat)
    ensures n <= |s|
  {
    if s == [] then 0 else (if s[0] == c then 1 else 0) + Count(s[1..], c)
  }

  /** Index of the first `c` in `s`, or `|s|` when there is none. */
  function IndexOf(s: string, c: char): (i: nat)
    ensures i <= |s|
    ensures i < |s| ==> s[i] == c
    ensures forall k :: 0 <= k < i ==> s[k] != c
  {
    if s == [] then 0 else if s[0] == c then 0 else 1 + IndexOf(s[1..], c)
  }

  predicate NoWs(s: string) {
    forall k :: 0 <= k < |s| ==> !IsWs(s[k])
  }

  /** A `.` that is neither the first nor the last character of `d`. */
  predicate HasInnerDot(d: string) {
    exists j :: 0 < j < |d| - 1 && d[j] == '.'
  }

  /**
   * Exactly one `@`, no white space, a non-empty part before the `@`, and a
   * domain (the part after it) with an inner `.`.
   */
  predicate EmailShape(s: string) {
    NoWs(s) && Count(s, '@') == 1 &&
    var i := IndexOf(s, '@');
    0 < i < |s| && HasInnerDot(s[i + 1..])
  }

  // ---------------------------------------------------------------------------
  // Helper facts

  lemma AllInClassCons(t: string)
    requires t != []
    ensures AllInClass(t) <==> InClass(t[0]) && AllInClass(t[1..])
  {
    if InClass(t[0]) && AllInClass(t[1..]) {
      forall k | 0 <= k < |t| ensures InClass(t[k]) {
        if k > 0 { assert t[k] == t[1..][k - 1]; }
      }
    }
  }

  lemma AllInClassSplit(t: string, j: nat)
    requires j < |t| && t[j] == '.'
    ensures AllInClass(t) <==> AllInClass(t[..j]) && AllInClass(t[j + 1..])
  {
    if AllInClass(t[..j]) && AllInClass(t[j + 1..]) {
      forall k | 0 <= k < |t| ensures InClass(t[k]) {
        if k < j { assert t[k] == t[..j][k]; }
        else if k > j { assert t[k] == t[j + 1..][k - j - 1]; }
      }
    }
  }

  lemma DomainMatchesIff(d: string)
    ensures DomainMatches(d) <==> AllInClass(d) && HasInnerDot(d)
  {
    if DomainMatches(d) {
      var j :| 0 < j < |d| - 1 && d[j] == '.' && AllInClass(d[..j]) && AllInClass(d[j + 1..]);
      AllInClassSplit(d, j);
    }
    if AllInClass(d) && HasInnerDot(d) {
      var j :| 0 < j < |d| - 1 && d[j] == '.';
      AllInClassSplit(d, j);
    }
  }

  lemma {:induction false} CountConcat(a: string, b: string, c: char)
    ensures Count(a + b, c) == Count(a, c) + Count(b, c)
  {
    if a != [] {
      assert (a + b)[1..] == a[1..] + b;
      CountConcat(a[1..], b, c);
    } else {
      assert a + b == b;
    }
  }

  lemma {:induction false} CountZero(t: string, c: char)
    ensures Count(t, c) == 0 <==> forall k :: 0 <= k < |t| ==> t[k] != c
  {
    if t != [] {
      CountZero(t[1..], c);
      assert forall k :: 1 <= k < |t| ==> t[k] == t[1..][k - 1];
    }
  }

  // ---------------------------------------------------------------------------
  // The recogniser decides the pattern

  lemma {:induction false} RunReject(t: string)
    ensures Run(Reject, t) == Reject
  {
    if t != [] { RunReject(t[1..]); }
  }

  lemma {:induction false} RunTld(t: string)
    ensures Run(Tld, t) == Tld <==> AllInClass(t)
  {
    if t != [] {
      AllInClassCons(t);
      if InClass(t[0]) { RunTld(t[1..]); } else { RunReject(t[1..]); }
    }
  }

  lemma RunDot(t: string)
    ensures Run(Dot, t) == Tld <==> t != [] && AllInClass(t)
  {
    if t != [] {
      AllInClassCons(t);
      if InClass(t[0]) { RunTld(t[1..]); } else { RunReject(t[1..]); }
    }
  }

  /** A `.` with at least one character after it. */
  ghost predicate DotBeforeLast(t: string) {
    exists k :: 0 <= k < |t| - 1 && t[k] == '.'
  }

  lemma {:induction false} RunHost(t: string)
    ensures Run(Host, t) == Tld <==> AllInClass(t) && DotBeforeLast(t)
  {
    if t == [] {
    } else {
      AllInClassCons(t);
      if !InClass(t[0]) {
        RunReject(t[1..]);
      } else if t[0] == '.' {
        RunDot(t[1..]);
        if |t| >= 2 { assert t[0] == '.'; }
      } else {
        RunHost(t[1..]);
        if DotBeforeLast(t) {
          var k :| 0 <= k < |t| - 1 && t[k] == '.';
          assert t[1..][k - 1] == '.';
        }
        if DotBeforeLast(t[1..]) {
          var k :| 0 <= k < |t| - 2 && t[1..][k] == '.';
          assert t[k + 1] == '.';
        }
      }
    }
  }

  lemma RunAtSign(t: string)
    ensures Run(AtSign, t) == Tld <==> AllInClass(t) && HasInnerDot(t)
  {
    if t != [] {
      AllInClassCons(t);
      if InClass(t[0]) {
        RunHost(t[1..]);
        if HasInnerDot(t) {
          var j :| 0 < j < |t| - 1 && t[j] == '.';
          assert t[1..][j - 1] == '.';
        }
        if DotBeforeLast(t[1..]) {
          var k :| 0 <= k < |t| - 2 && t[1..][k] == '.';
          assert t[k + 1] == '.';
        }
      } else {
        RunReject(t[1..]);
      }
    }
  }

  /** `[^\s@]*@` followed by a domain with an inner dot, all of it in class. */
  ghost predicate LocalTail(t: string) {
    exists i :: 0 <= i < |t| && t[i] == '@' && AllInClass(t[..i]) &&
      AllInClass(t[i + 1..]) && HasInnerDot(t[i + 1..])
  }

  lemma LocalTailAt(t: string)
    requires t != [] && t[0] == '@'
    ensures LocalTail(t) <==> AllInClass(t[1..]) && HasInnerDot(t[1..])
  {
    assert forall i :: 0 < i <= |t| ==> t[..i][0] == t[0];
    assert t[..0] == [];
  }

  lemma LocalTailCons(t: string)
    requires t != [] && InClass(t[0])
    ensures LocalTail(t) <==> LocalTail(t[1..])
  {
    if LocalTail(t) {
      var i :| 0 <= i < |t| && t[i] == '@' && AllInClass(t[..i]) &&
        AllInClass(t[i + 1..]) && HasInnerDot(t[i + 1..]);
      AllInClassCons(t[..i]);
      assert t[..i][1..] == t[1..][..i - 1];
      assert t[1..][i - 1 + 1..] == t[i + 1..];
    }
    if LocalTail(t[1..]) {
      var i :| 0 <= i < |t| - 1 && t[1..][i] == '@' && AllInClass(t[1..][..i]) &&
        AllInClass(t[1..][i + 1..]) && HasInnerDot(t[1..][i + 1..]);
      AllInClassCons(t[..i + 1]);
      assert t[..i + 1][1..] == t[1..][..i];
      assert t[1..][i + 1..] == t[i + 2..];
    }
  }

  lemma {:induction false} RunLocal(t: string)
    ensures Run(Local, t) == Tld <==> LocalTail(t)
  {
    if t == [] {
    } else if t[0] == '@' {
      RunAtSign(t[1..]);
      LocalTailAt(t);
    } else if InClass(t[0]) {
      RunLocal(t[1..]);
      LocalTailCons(t);
    } else {
      RunReject(t[1..]);
      assert forall i :: 0 < i <= |t| ==> t[..i][0] == t[0];
    }
  }

  lemma RegexIffLocalTail(s: string)
    requires s != [] && InClass(s[0])
    ensures RegexMatches(s) <==> LocalTail(s)
  {
    if RegexMatches(s) {
      var i :| 0 < i < |s| && s[i] == '@' && AllInClass(s[..i]) && DomainMatches(s[i + 1..]);
      DomainMatchesIff(s[i + 1..]);
    }
    if LocalTail(s) {
      var i :| 0 <= i < |s| && s[i] == '@' && AllInClass(s[..i]) &&
        AllInClass(s[i + 1..]) && HasInnerDot(s[i + 1..]);
      DomainMatchesIff(s[i + 1..]);
    }
  }

  /** The recogniser accepts exactly the strings the pattern matches. */
  lemma RecogniserIffRegex(s: string)
    ensures Run(Start, s) == Tld <==> RegexMatches(s)
  {
    if s != [] && InClass(s[0]) {
      assert Run(Start, s) == Run(Local, s[1..]) == Run(Local, s);
      RunLocal(s);
      RegexIffLocalTail(s);
    } else if s != [] {
      RunReject(s[1..]);
      assert forall i :: 0 < i <= |s| ==> s[..i][0] == s[0];
    }
  }

  // ---------------------------------------------------------------------------
  // The pattern and the structural description agree

  lemma CountAround(s: string, i: nat, c: char)
    requires i < |s|
    ensures Count(s, c) == Count(s[..i], c) + (if s[i] == c then 1 else 0) + Count(s[i + 1..], c)
  {
    assert s == s[..i] + ([s[i]] + s[i + 1..]);
    CountConcat(s[..i], [s[i]] + s[i + 1..], c);
    CountConcat([s[i]], s[i + 1..], c);
  }

  lemma IndexOfIs(s: string, c: char, i: nat)
    requires i < |s| && s[i] == c
    requires forall k :: 0 <= k < i ==> s[k] != c
    ensures IndexOf(s, c) == i
  {
  }

  lemma SplitToShape(s: string, i: nat)
    requires 0 < i < |s| && s[i] == '@'
    requires AllInClass(s[..i]) && AllInClass(s[i + 1..]) && HasInnerDot(s[i + 1..])
    ensures EmailShape(s)
  {
    var local, domain := s[..i], s[i + 1..];
    CountAround(s, i, '@');
    CountZero(local, '@');
    CountZero(domain, '@');
    assert Count(s, '@') == 1;
    assert NoWs(s) by {
      forall k | 0 <= k < |s| ensures !IsWs(s[k]) {
        if k < i { assert s[k] == local[k]; }
        else if k > i { assert s[k] == domain[k - i - 1]; }
      }
    }
    assert forall k :: 0 <= k < i ==> s[k] == local[k];
    IndexOfIs(s, '@', i);
  }

  lemma RegexToShape(s: string)
    requires RegexMatches(s)
    ensures EmailShape(s)
  {
    var i :| 0 < i < |s| && s[i] == '@' && AllInClass(s[..i]) && DomainMatches(s[i + 1..]);
    DomainMatchesIff(s[i + 1..]);
    SplitToShape(s, i);
  }

  lemma ShapeToRegex(s: string)
    requires EmailShape(s)
    ensures RegexMatches(s)
  {
    var i := IndexOf(s, '@');
    var local, domain := s[..i], s[i + 1..];
    CountAround(s, i, '@');
    CountZero(domain, '@');
    assert AllInClass(local) by {
      forall k | 0 <= k < |local| ensures InClass(local[k]) { assert local[k] == s[k]; }
    }
    assert AllInClass(domain) by {
      forall k | 0 <= k < |domain| ensures InClass(domain[k]) { assert domain[k] == s[i + 1 + k]; }
    }
    DomainMatchesIff(domain);
  }

  lemma RegexIffShape(s: string)
    ensures RegexMatches(s) <==> EmailShape(s)
  {
    if RegexMatches(s) { RegexToShape(s); }
    if EmailShape(s) { ShapeToRegex(s); }
  }

  // ---------------------------------------------------------------------------
  // The test the handler runs

  /**
   * The test `/^[^\s@]+@[^\s@]+\.[^\s@]+$/.test(s)`, run by the recogniser:
   * it accepts exactly what the pattern matches, which is exactly the
   * well-shaped addresses.
   */
  predicate IsValidEmail(s: string): (b: bool)
    ensures b <==> RegexMatches(s)
    ensures b <==> EmailShape(s)
  {
    RecogniserIffRegex(s);
    RegexIffShape(s);
    Run(Start, s) == Tld
  }
}
