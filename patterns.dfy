/** The three regular expressions of the rule table, each written as a
    matcher that follows the expression's structure part by part. A match is
    always of the whole value: every expression is anchored with `^…$` and
    none uses the `m` flag. */
module Patterns {
  import opened Text

  /** The regular expressions the rule table uses. */
  datatype Regex =
    | HebrewName    // /^[א-ת\s]+$/
    | IsraeliPhone  // /^(05|04|02|03|08|09)\d{1,2}-?\d{3}-?\d{4}$/
    | SimpleEmail   // /^[^\s@]+@[^\s@]+\.[^\s@]+$/

  /** `pattern.test(value)` */
  predicate Matches(p: Regex, s: string)
  {
    match p
    case HebrewName => NameMatch(s)
    case IsraeliPhone => PhoneMatch(s)
    case SimpleEmail => EmailMatch(s)
  }

  // ---------------------------------------------------------------------
  // /^[א-ת\s]+$/

  predicate NameMatch(s: string)
  {
    |s| > 0 && forall i :: 0 <= i < |s| ==> IsHebrewLetter(s[i]) || IsWs(s[i])
  }

  // ---------------------------------------------------------------------
  // /^(05|04|02|03|08|09)\d{1,2}-?\d{3}-?\d{4}$/

  /** `(05|04|02|03|08|09)` */
  predicate PhonePrefix(s: string)
  {
    |s| == 2 && s[0] == '0' && s[1] in {'5', '4', '2', '3', '8', '9'}
  }

  /** `-?\d{4}$` */
  predicate LineGroup(t: string)
  {
    (|t| == 4 && AllDigits(t)) || (|t| == 5 && t[0] == '-' && AllDigits(t[1..]))
  }

  /** `\d{3}-?\d{4}$` */
  predicate ExchangeGroup(t: string)
  {
    |t| >= 3 && AllDigits(t[..3]) && LineGroup(t[3..])
  }

  /** `\d{k}-?\d{3}-?\d{4}$`, for the repetition count k of `\d{1,2}` */
  predicate AreaGroup(t: string, k: nat)
  {
    |t| >= k && AllDigits(t[..k])
    && (ExchangeGroup(t[k..]) || (|t| > k && t[k] == '-' && ExchangeGroup(t[k + 1..])))
  }

  predicate PhoneMatch(s: string)
  {
    |s| >= 2 && PhonePrefix(s[..2]) && (AreaGroup(s[2..], 1) || AreaGroup(s[2..], 2))
  }

  // ---------------------------------------------------------------------
  // /^[^\s@]+@[^\s@]+\.[^\s@]+$/

  /** `[^\s@]` */
  predicate Plain(c: char)
  {
    !IsWs(c) && c != '@'
  }

  /** `[^\s@]+` */
  predicate PlainRun(s: string)
  {
    |s| > 0 && forall i :: 0 <= i < |s| ==> Plain(s[i])
  }

  /** The `@` sits at index `a` and the escaped `\.` at index `d`. */
  predicate EmailSplit(s: string, a: int, d: int)
  {
    0 < a < d < |s| && s[a] == '@' && s[d] == '.'
    && PlainRun(s[..a]) && PlainRun(s[a + 1..d]) && PlainRun(s[d + 1..])
  }

  predicate EmailMatch(s: string)
  {
    exists a, d | 0 < a < d < |s| :: EmailSplit(s, a, d)
  }

  // ---------------------------------------------------------------------
  // What the patterns accept, stated without their structure

  /** No pattern of the table matches the empty value; this is why a blank
      optional field must be let through before the pattern check. */
  lemma NoPatternMatchesEmpty(p: Regex)
    ensures !Matches(p, "")
  {
  }

  /** Every character is a digit or a hyphen. */
  predicate DigitsOrHyphens(s: string)
  {
    forall i :: 0 <= i < |s| ==> IsDigit(s[i]) || s[i] == '-'
  }

  lemma DigitsOrHyphensConcat(x: string, y: string)
    requires DigitsOrHyphens(x) && DigitsOrHyphens(y)
    ensures DigitsOrHyphens(x + y)
  {
    forall i | 0 <= i < |x + y| ensures IsDigit((x + y)[i]) || (x + y)[i] == '-' {
      if i < |x| { assert (x + y)[i] == x[i]; } else { assert (x + y)[i] == y[i - |x|]; }
    }
  }

  lemma LineGroupShape(t: string)
    requires LineGroup(t)
    ensures 4 <= |t| <= 5 && DigitsOrHyphens(t) && AllDigits(t[|t| - 4..])
  {
    if |t| == 5 {
      var digits := t[1..];
      DigitsAreDigitsOrHyphens(digits);
      assert t == [t[0]] + digits;
      DigitsOrHyphensConcat([t[0]], digits);
      assert t[|t| - 4..] == digits;
    } else {
      DigitsAreDigitsOrHyphens(t);
      assert t[|t| - 4..] == t;
    }
  }

  lemma DigitsAreDigitsOrHyphens(x: string)
    requires AllDigits(x)
    ensures DigitsOrHyphens(x)
  {
  }

  lemma ExchangeGroupShape(t: string)
    requires ExchangeGroup(t)
    ensures 7 <= |t| <= 8 && DigitsOrHyphens(t) && AllDigits(t[|t| - 4..])
  {
    var head, line := t[..3], t[3..];
    LineGroupShape(line);
    DigitsAreDigitsOrHyphens(head);
    assert t == head + line;
    DigitsOrHyphensConcat(head, line);
    assert t[|t| - 4..] == line[|line| - 4..];
  }

  lemma AreaGroupShape(t: string, k: nat)
    requires AreaGroup(t, k)
    ensures k + 7 <= |t| <= k + 9 && DigitsOrHyphens(t) && AllDigits(t[|t| - 4..])
  {
    var h := if ExchangeGroup(t[k..]) then 0 else 1;
    var area, sep, rest := t[..k], t[k..k + h], t[k + h..];
    ExchangeGroupShape(rest);
    DigitsAreDigitsOrHyphens(area);
    assert t == area + sep + rest;
    DigitsOrHyphensConcat(area, sep);
    DigitsOrHyphensConcat(area + sep, rest);
    assert t[|t| - 4..] == rest[|rest| - 4..];
  }

  /** Every accepted phone number is 10 to 13 characters of digits and
      hyphens, starts with `0`, and ends with four digits. */
  lemma PhoneShape(s: string)
    requires PhoneMatch(s)
    ensures 10 <= |s| <= 13 && s[0] == '0'
    ensures forall i :: 0 <= i < |s| ==> IsDigit(s[i]) || s[i] == '-'
    ensures AllDigits(s[|s| - 4..])
  {
    var k := if AreaGroup(s[2..], 1) then 1 else 2;
    var prefix, t := s[..2], s[2..];
    AreaGroupShape(t, k);
    assert DigitsOrHyphens(prefix) by {
      assert prefix[0] == '0' && prefix[1] in {'5', '4', '2', '3', '8', '9'};
    }
    assert s == prefix + t;
    DigitsOrHyphensConcat(prefix, t);
    assert s[|s| - 4..] == t[|t| - 4..];
  }

  /** An all-digit value of 10 or 11 characters with a valid prefix matches,
      whichever way `\d{1,2}` has to be read. */
  lemma PhoneDigitsOnly(s: string)
    requires |s| == 10 || |s| == 11
    requires PhonePrefix(s[..2]) && AllDigits(s)
    ensures PhoneMatch(s)
  {
    var k := |s| - 9;
    var t := s[2..];
    assert AllDigits(t[..k]) by {
      forall i | 0 <= i < k ensures IsDigit(t[..k][i]) { assert t[..k][i] == s[2 + i]; }
    }
    var u := t[k..];
    assert AllDigits(u[..3]) by {
      forall i | 0 <= i < 3 ensures IsDigit(u[..3][i]) { assert u[..3][i] == s[2 + k + i]; }
    }
    assert AllDigits(u[3..]) by {
      forall i | 0 <= i < |u[3..]| ensures IsDigit(u[3..][i]) { assert u[3..][i] == s[5 + k + i]; }
    }
    assert ExchangeGroup(u);
    assert AreaGroup(t, k);
  }

  /** The form the error message asks for, `05X-XXXXXXX`, matches. */
  lemma PhoneHyphenForm(s: string)
    requires |s| == 11 && PhonePrefix(s[..2]) && s[3] == '-'
    requires forall i :: 0 <= i < |s| && i != 3 ==> IsDigit(s[i])
    ensures PhoneMatch(s)
  {
    var t := s[2..];
    assert AllDigits(t[..1]) by { assert t[..1][0] == s[2]; }
    var u := t[2..];
    assert AllDigits(u[..3]) by {
      forall i | 0 <= i < 3 ensures IsDigit(u[..3][i]) { assert u[..3][i] == s[4 + i]; }
    }
    assert AllDigits(u[3..]) by {
      forall i | 0 <= i < 4 ensures IsDigit(u[3..][i]) { assert u[3..][i] == s[7 + i]; }
    }
    assert ExchangeGroup(u);
    assert t[1] == '-' && t[2..] == u;
    assert AreaGroup(t, 1);
  }

  /** An address matches exactly when it holds no whitespace, holds one `@`
      with something before it, and holds a `.` after that `@` that is
      neither the character right after it nor the last one. */
  predicate EmailShape(s: string)
  {
    (forall i :: 0 <= i < |s| ==> !IsWs(s[i]))
    && (exists a :: 0 < a < |s| && s[a] == '@'
          && (forall i :: 0 <= i < |s| && s[i] == '@' ==> i == a)
          && (exists d :: a + 1 < d < |s| - 1 && s[d] == '.'))
  }

  lemma EmailMatchIff(s: string)
    ensures EmailMatch(s) <==> EmailShape(s)
  {
    if EmailMatch(s) {
      var a, d :| 0 < a < d < |s| && EmailSplit(s, a, d);
      forall i | 0 <= i < |s| && i != a && i != d ensures Plain(s[i]) {
        if i < a {
          assert s[i] == s[..a][i];
        } else if i < d {
          assert s[i] == s[a + 1..d][i - a - 1];
        } else {
          assert s[i] == s[d + 1..][i - d - 1];
        }
      }
      assert |s[d + 1..]| > 0 && |s[a + 1..d]| > 0;
    }
    if EmailShape(s) {
      var a :| 0 < a < |s| && s[a] == '@'
               && (forall i :: 0 <= i < |s| && s[i] == '@' ==> i == a)
               && exists d :: a + 1 < d < |s| - 1 && s[d] == '.';
      var d :| a + 1 < d < |s| - 1 && s[d] == '.';
      var local, host, top := s[..a], s[a + 1..d], s[d + 1..];
      assert PlainRun(local) by {
        forall i | 0 <= i < |local| ensures Plain(local[i]) { assert local[i] == s[i]; }
      }
      assert PlainRun(host) by {
        forall i | 0 <= i < |host| ensures Plain(host[i]) { assert host[i] == s[a + 1 + i]; }
      }
      assert PlainRun(top) by {
        forall i | 0 <= i < |top| ensures Plain(top[i]) { assert top[i] == s[d + 1 + i]; }
      }
      assert EmailSplit(s, a, d);
    }
  }
}
