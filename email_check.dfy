/** The e-mail test of the registration form, `checkValid`: the regular
    expression `^[^\s@]+@[^\s@]+\.[^\s@]+$`, and a plain characterisation of
    the strings it accepts. */
module EmailCheck {
  import opened JsString

  /** A character matched by the class `[^\s@]`. */
  predicate Plain(c: char) {
    !IsWs(c) && c != '@'
  }

  /** Every character of `s` is matched by `[^\s@]`. */
  predicate AllPlain(s: string) {
    forall k | 0 <= k < |s| :: Plain(s[k])
  }

  /** `s` is `local + "@" + host + "." + tld` with `s[at] == '@'` and
      `s[dot] == '.'`, each of the three parts matching `[^\s@]+`. */
  predicate SplitsAt(s: string, at: int, dot: int) {
    0 < at && at + 1 < dot && dot + 1 < |s| &&
    s[at] == '@' && s[dot] == '.' &&
    AllPlain(s[..at]) && AllPlain(s[at + 1..dot]) && AllPlain(s[dot + 1..])
  }

  /** `checkValid`: the anchored regular expression matches the whole
      string, i.e. some choice of the `@` and of the `.` makes the three
      `[^\s@]+` groups match (a backtracking matcher tries every choice). */
  predicate CheckValid(s: string)
    ensures CheckValid(s) ==> 5 <= |s| && s[0] != '@' && '@' in s
  {
    exists at, dot | 0 < at < dot < |s| :: SplitsAt(s, at, dot)
  }

  /** No character of `s` is white space. */
  predicate NoWhitespace(s: string) {
    forall k | 0 <= k < |s| :: !IsWs(s[k])
  }

  /** `s[at]` is an `@` and no other character of `s` is. */
  predicate SoleAtSign(s: string, at: int) {
    0 <= at < |s| && s[at] == '@' &&
    forall k | 0 <= k < |s| && s[k] == '@' :: k == at
  }

  /** `d` holds a `.` that is neither its first nor its last character. */
  predicate InnerDot(d: string) {
    exists k | 0 < k < |d| - 1 :: d[k] == '.'
  }

  /** The accepted strings described without the regular expression: no
      white space; exactly one `@`, not at the front; and a `.` in the part
      after the `@` that is neither its first nor its last character. */
  predicate WellFormedEmail(s: string) {
    NoWhitespace(s) &&
    exists at | 0 < at < |s| :: SoleAtSign(s, at) && InnerDot(s[at + 1..])
  }

  /** The regular expression accepts exactly the well-formed strings. */
  lemma CheckValidIff(s: string)
    ensures CheckValid(s) <==> WellFormedEmail(s)
  {
    if CheckValid(s) {
      var at, dot :| 0 < at < dot < |s| && SplitsAt(s, at, dot);
      MatchIsWellFormed(s, at, dot);
    }
    if WellFormedEmail(s) {
      var at :| 0 < at < |s| && SoleAtSign(s, at) && InnerDot(s[at + 1..]);
      var k :| 0 < k < |s[at + 1..]| - 1 && s[at + 1..][k] == '.';
      WellFormedIsMatch(s, at, at + 1 + k);
    }
  }

  /** A match pins the only `@` and a `.` strictly inside the domain. */
  lemma MatchIsWellFormed(s: string, at: int, dot: int)
    requires SplitsAt(s, at, dot)
    ensures SoleAtSign(s, at) && InnerDot(s[at + 1..]) && WellFormedEmail(s)
  {
    forall k | 0 <= k < |s| ensures !IsWs(s[k]) && (s[k] == '@' ==> k == at) {
      if k < at {
        assert s[k] == s[..at][k];
      } else if at < k < dot {
        assert s[k] == s[at + 1..dot][k - at - 1];
      } else if dot < k {
        assert s[k] == s[dot + 1..][k - dot - 1];
      }
    }
    assert s[at + 1..][dot - at - 1] == '.';
    assert 0 < at < |s| && SoleAtSign(s, at) && InnerDot(s[at + 1..]);
  }

  /** The sole `@` and an inner domain `.` make the regex match. */
  lemma WellFormedIsMatch(s: string, at: int, dot: int)
    requires NoWhitespace(s) && SoleAtSign(s, at)
    requires 0 < at && at + 1 < dot && dot + 1 < |s| && s[dot] == '.'
    ensures SplitsAt(s, at, dot) && CheckValid(s)
  {
    assert forall k | 0 <= k < |s| && k != at :: Plain(s[k]);
    var local, host, tld := s[..at], s[at + 1..dot], s[dot + 1..];
    assert AllPlain(local) by {
      forall k | 0 <= k < |local| ensures Plain(local[k]) {
        assert local[k] == s[k];
      }
    }
    assert AllPlain(host) by {
      forall k | 0 <= k < |host| ensures Plain(host[k]) {
        assert host[k] == s[at + 1 + k];
      }
    }
    assert AllPlain(tld) by {
      forall k | 0 <= k < |tld| ensures Plain(tld[k]) {
        assert tld[k] == s[dot + 1 + k];
      }
    }
    assert SplitsAt(s, at, dot);
  }
}
