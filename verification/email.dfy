/**
 * The page's email check `isValidEmail`: the regular expression
 * `^[^\s@]+@[^\s@]+\.[^\s@]+$` tested against the whole string.
 */
module Email {
  import opened Wrappers

  /** JavaScript's `\s`: the WhiteSpace and LineTerminator code points of ECMAScript. */
  predicate IsJsWhitespace(c: char) {
    var u := c as int;
    || u == 0x09 || u == 0x0A || u == 0x0B || u == 0x0C || u == 0x0D || u == 0x20
    || u == 0xA0 || u == 0x1680 || (0x2000 <= u <= 0x200A)
    || u == 0x2028 || u == 0x2029 || u == 0x202F || u == 0x205F || u == 0x3000 || u == 0xFEFF
  }

  /** The character class `[^\s@]`. */
  predicate Plain(c: char) {
    !IsJsWhitespace(c) && c != '@'
  }

  /**
   * The pattern read literally, with the '@' at `at` and the '.' at `dot`:
   * a non-empty plain run, '@', a non-empty plain run, '.', a non-empty plain run.
   * ('.' is itself plain, so every position but the '@' holds a plain character.)
   */
  ghost predicate MatchesAt(s: string, at: int, dot: int) {
    && 0 < at && at + 1 < dot && dot + 1 < |s|
    && s[at] == '@' && s[dot] == '.'
    && forall k :: 0 <= k < |s| && k != at ==> Plain(s[k])
  }

  /** The string belongs to the language of the regular expression. */
  ghost predicate MatchesEmailPattern(s: string) {
    exists at, dot :: MatchesAt(s, at, dot)
  }

  /** The first position of `c` in `s`, if any. */
  function IndexOf(s: string, c: char): (r: Option<nat>)
    ensures r.None? <==> c !in s
    ensures r.Some? ==> r.value < |s| && s[r.value] == c && c !in s[..r.value]
  {
    if |s| == 0 then None
    else if s[0] == c then Some(0)
    else
      match IndexOf(s[1..], c)
      case None => None
      case Some(i) =>
        assert s[..i + 1] == [s[0]] + s[1..][..i];
        Some(i + 1)
  }

  /** The domain part contains a '.' with at least one character on each side. */
  predicate HasInnerDot(d: string) {
    exists j | 0 < j < |d| - 1 :: d[j] == '.'
  }

  /**
   * `isValidEmail`, as a scan: no whitespace anywhere, a first '@' that is not at the
   * start, no further '@', and an inner '.' in what follows the '@'.
   */
  predicate IsValidEmail(s: string): (ok: bool)
    ensures ok ==> 5 <= |s| && '@' in s && s[0] != '@' && s[|s| - 1] != '@'
  {
    && (forall k | 0 <= k < |s| :: !IsJsWhitespace(s[k]))
    && match IndexOf(s, '@')
       case None => false
       case Some(at) => at > 0 && '@' !in s[at + 1..] && HasInnerDot(s[at + 1..])
  }

  /** The scan accepts exactly the strings the regular expression matches. */
  lemma IsValidEmailMatchesPattern(s: string)
    ensures IsValidEmail(s) <==> MatchesEmailPattern(s)
  {
    if IsValidEmail(s) {
      var at := IndexOf(s, '@').value;
      var d := s[at + 1..];
      var j :| 0 < j < |d| - 1 && d[j] == '.';
      var dot := at + 1 + j;
      forall k | 0 <= k < |s| && k != at ensures Plain(s[k]) {
        if k < at {
          assert s[k] in s[..at];
        } else {
          assert s[k] == d[k - at - 1];
        }
      }
      assert MatchesAt(s, at, dot);
    }
    if MatchesEmailPattern(s) {
      var at, dot :| MatchesAt(s, at, dot);
      assert forall k :: 0 <= k < |s| ==> !IsJsWhitespace(s[k]) by {
        forall k | 0 <= k < |s| ensures !IsJsWhitespace(s[k]) {
          if k != at { assert Plain(s[k]); }
        }
      }
      var first := IndexOf(s, '@');
      assert first.Some?;
      assert first.value == at;
      var d := s[at + 1..];
      assert '@' !in d by {
        forall i | 0 <= i < |d| ensures d[i] != '@' {
          assert d[i] == s[at + 1 + i];
          assert Plain(s[at + 1 + i]);
        }
      }
      assert d[dot - at - 1] == '.';
      assert HasInnerDot(d);
    }
  }

  /**
   * The characterisation in plain words: no whitespace, exactly one '@', something
   * before it, and a '.' after it with a character on each side.
   */
  lemma ValidEmailShape(s: string)
    requires IsValidEmail(s)
    ensures forall k :: 0 <= k < |s| ==> !IsJsWhitespace(s[k])
    ensures exists at ::
      && 0 < at < |s| && s[at] == '@'
      && (forall k :: 0 <= k < |s| && k != at ==> s[k] != '@')
      && HasInnerDot(s[at + 1..])
  {
    IsValidEmailMatchesPattern(s);
    var at, dot :| MatchesAt(s, at, dot);
    assert forall k :: 0 <= k < |s| && k != at ==> s[k] != '@' by {
      forall k | 0 <= k < |s| && k != at ensures s[k] != '@' {
        assert Plain(s[k]);
      }
    }
    assert s[at + 1..][dot - at - 1] == '.';
  }

  /** A plain address is accepted. */
  lemma AcceptsPlainAddress()
    ensures IsValidEmail("a@b.co")
  {
    assert "a@b.co"[1] == '@';
    assert "a@b.co"[2..][1] == '.';
  }

  /** Addresses missing a part around the '@' or the '.' are rejected. */
  lemma RejectsMissingParts()
    ensures !IsValidEmail("foo@bar")
    ensures !IsValidEmail("ab.c")
    ensures !IsValidEmail("@b.c")
    ensures !IsValidEmail("")
  {
    assert "foo@bar"[3] == '@';
    assert "@b.c"[0] == '@';
  }

  /** A dot right after the '@' leaves the domain without a name before it. */
  lemma RejectsLeadingDomainDot()
    ensures !IsValidEmail("a@.c")
  {
    assert "a@.c"[1] == '@';
  }

  /** A space or a second '@' anywhere makes the address invalid. */
  lemma RejectsSpaceAndSecondAt()
    ensures !IsValidEmail("a b@c.d")
    ensures !IsValidEmail("a@@b.c")
  {
    assert "a b@c.d"[1] == ' ';
    assert "a@@b.c"[1] == '@';
    assert "a@@b.c"[2..][0] == '@';
  }
}
