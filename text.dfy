/**
 * The few `java.lang.String` operations the controllers rely on, written out:
 * `isEmpty`, `isBlank`, `trim`, upper-case folding for `IgnoreCase` queries,
 * the order used by `ORDER BY ... ASC`, and the `"" + int` conversion.
 */
module Text {
  import opened Wrappers

  // ---------------------------------------------------------------------
  // isEmpty / isBlank

  /** `Character.isWhitespace`: the ASCII controls 9-13 and 28-31, the space,
      and the Unicode space separators that are not non-breaking. */
  predicate IsWhitespace(c: char)
  {
    || c == ' '
    || ('\t' <= c <= '\r')
    || ('\U{1C}' <= c <= '\U{1F}')
    || c == '\U{1680}'
    || ('\U{2000}' <= c <= '\U{2006}')
    || ('\U{2008}' <= c <= '\U{200A}')
    || c == '\U{2028}' || c == '\U{2029}' || c == '\U{205F}' || c == '\U{3000}'
  }

  /** `String.isBlank()`: empty, or white space only. */
  predicate IsBlank(s: string)
  {
    forall i :: 0 <= i < |s| ==> IsWhitespace(s[i])
  }

  /** `s == null || s.isEmpty()` */
  predicate NullOrEmpty(s: Option<string>)
  {
    s.None? || s.value == []
  }

  /** `s == null || s.isBlank()` */
  predicate NullOrBlank(s: Option<string>)
  {
    s.None? || IsBlank(s.value)
  }

  /** Every null or empty string passes the blank test. */
  lemma EmptyIsStricterThanBlank(s: Option<string>)
    ensures NullOrEmpty(s) ==> NullOrBlank(s)
  {
  }

  /** The converse fails: some string is blank but not empty. */
  lemma BlankNotEmpty()
    ensures exists t :: !NullOrEmpty(Some(t)) && NullOrBlank(Some(t))
  {
    assert !NullOrEmpty(Some(" ")) && NullOrBlank(Some(" "));
  }

  // ---------------------------------------------------------------------
  // trim

  /** `String.trim()` removes every character whose code is at most U+0020. */
  predicate Trimmed(c: char)
  {
    c <= ' '
  }

  function TrimStart(s: string): (r: string)
    ensures |r| <= |s| && r == s[|s| - |r|..]
    ensures r == [] || !Trimmed(r[0])
    ensures forall i :: 0 <= i < |s| - |r| ==> Trimmed(s[i])
  {
    if s != [] && Trimmed(s[0]) then TrimStart(s[1..]) else s
  }

  function TrimEnd(s: string): (r: string)
    ensures |r| <= |s| && r == s[..|r|]
    ensures r == [] || !Trimmed(r[|r| - 1])
    ensures forall i :: |r| <= i < |s| ==> Trimmed(s[i])
  {
    if s != [] && Trimmed(s[|s| - 1]) then TrimEnd(s[..|s| - 1]) else s
  }

  /** `String.trim()` */
  function Trim(s: string): (r: string)
    ensures |r| <= |s|
    ensures r == [] || (!Trimmed(r[0]) && !Trimmed(r[|r| - 1]))
  {
    TrimEnd(TrimStart(s))
  }

  /** What `trim` leaves is the stretch of `s` that starts after the
      removable characters at the front, `a` of them, and is followed only
      by removable characters. */
  lemma TrimSlice(s: string, a: nat)
    requires a == |s| - |TrimStart(s)|
    ensures var r := Trim(s);
            && a + |r| <= |s| && r == s[a..a + |r|]
            && (forall i :: 0 <= i < a ==> Trimmed(s[i]))
            && (forall i :: a + |r| <= i < |s| ==> Trimmed(s[i]))
  {
    var t := TrimStart(s);
    var r := Trim(s);
    assert r == t[..|r|];
    assert t == s[a..];
    assert r == s[a..a + |r|];
    forall i | a + |r| <= i < |s|
      ensures Trimmed(s[i])
    {
      assert s[i] == t[i - a];
    }
  }

  /** Trimming twice is trimming once. */
  lemma TrimIdempotent(s: string)
    ensures Trim(Trim(s)) == Trim(s)
  {
    var t := Trim(s);
    assert TrimStart(t) == t;
    assert TrimEnd(t) == t;
  }

  /** The shape `trim` leaves: no removable character at either end. */
  predicate IsTrimmed(s: string)
  {
    s == [] || (!Trimmed(s[0]) && !Trimmed(s[|s| - 1]))
  }

  /** The trimmed strings are exactly the ones `trim` leaves alone. */
  lemma IsTrimmedIffFixpoint(s: string)
    ensures IsTrimmed(s) <==> Trim(s) == s
    ensures IsTrimmed(Trim(s))
  {
    if IsTrimmed(s) {
      assert TrimStart(s) == s;
      assert TrimEnd(s) == s;
    }
  }

  /** A string that `isBlank` accepts as non-blank can still trim to the empty
      string, since `trim` and `isBlank` use different notions of white space. */
  lemma NonBlankMayTrimToEmpty()
    ensures !IsBlank("\U{1}") && Trim("\U{1}") == []
  {
    assert !IsWhitespace("\U{1}"[0]);
    assert TrimStart("\U{1}") == [];
  }

  // ---------------------------------------------------------------------
  // Layout

  /** `t` occurs in `s` starting at position `i`. */
  predicate HasAt(s: string, i: int, t: string)
  {
    0 <= i && i + |t| <= |s| && s[i..i + |t|] == t
  }

  /** Both halves of a concatenation occur in it, one after the other. */
  lemma HasAtConcat(s: string, t: string)
    ensures HasAt(s + t, 0, s) && HasAt(s + t, |s|, t)
  {
    assert (s + t)[..|s|] == s;
    assert (s + t)[|s|..|s| + |t|] == t;
  }

  /** What occurs in a piece of a string occurs in the string, shifted by
      the position of the piece. */
  lemma HasAtWithin(s: string, i: nat, t: string, j: nat, u: string)
    requires HasAt(s, i, t) && HasAt(t, j, u)
    ensures HasAt(s, i + j, u)
  {
    forall k | 0 <= k < |u|
      ensures s[i + j + k] == u[k]
    {
      assert s[i..i + |t|][j + k] == t[j + k];
      assert t[j..j + |u|][k] == u[k];
    }
    assert s[i + j..i + j + |u|] == u;
  }

  // ---------------------------------------------------------------------
  // IgnoreCase

  /** Upper-case folding of the ASCII letters, the folding assumed for
      `UPPER(...)` in the database. */
  function UpperChar(c: char): char
  {
    if 'a' <= c <= 'z' then (c as int - 32) as char else c
  }

  function Upper(s: string): (r: string)
    ensures |r| == |s|
    ensures forall i :: 0 <= i < |s| ==> r[i] == UpperChar(s[i])
  {
    if s == [] then [] else [UpperChar(s[0])] + Upper(s[1..])
  }

  /** The comparison that an `...IgnoreCase` derived query performs. */
  predicate EqualsIgnoreCase(a: string, b: string)
  {
    Upper(a) == Upper(b)
  }

  /** Two strings are equal ignoring case exactly when they have the same
      length and agree character by character once folded. */
  lemma EqualsIgnoreCaseCharwise(a: string, b: string)
    ensures EqualsIgnoreCase(a, b) <==>
              |a| == |b| && forall i :: 0 <= i < |a| ==> UpperChar(a[i]) == UpperChar(b[i])
  {
    if |a| == |b| && forall i :: 0 <= i < |a| ==> UpperChar(a[i]) == UpperChar(b[i]) {
      assert forall i :: 0 <= i < |a| ==> Upper(a)[i] == Upper(b)[i];
    }
  }

  /** Folding a folded character changes nothing. */
  lemma UpperCharIdempotent(c: char)
    ensures UpperChar(UpperChar(c)) == UpperChar(c)
  {
  }

  /** Every string is equal ignoring case to its upper-case form, so "Aula 1"
      and "AULA 1" clash as location names. */
  lemma EqualsIgnoreCaseUpper(s: string)
    ensures EqualsIgnoreCase(s, Upper(s))
  {
    var u := Upper(s);
    forall i | 0 <= i < |s|
      ensures UpperChar(s[i]) == UpperChar(u[i])
    {
      UpperCharIdempotent(s[i]);
    }
    EqualsIgnoreCaseCharwise(s, u);
  }

  // ---------------------------------------------------------------------
  // ORDER BY ... ASC

  /** Lexicographic order on character codes: the total order on strings
      that this model uses for the database's collation. */
  predicate StrLe(a: string, b: string)
    decreases |a|
  {
    if a == [] then true
    else if b == [] then false
    else if a[0] != b[0] then a[0] < b[0]
    else StrLe(a[1..], b[1..])
  }

  lemma {:induction false} StrLeTotal(a: string, b: string)
    ensures StrLe(a, b) || StrLe(b, a)
    decreases |a|
  {
    if a != [] && b != [] && a[0] == b[0] {
      StrLeTotal(a[1..], b[1..]);
    }
  }

  lemma {:induction false} StrLeTransitive(a: string, b: string, c: string)
    requires StrLe(a, b) && StrLe(b, c)
    ensures StrLe(a, c)
    decreases |a|
  {
    if a != [] && b != [] && c != [] && a[0] == b[0] == c[0] {
      StrLeTransitive(a[1..], b[1..], c[1..]);
    }
  }

  lemma {:induction false} StrLeAntisymmetric(a: string, b: string)
    requires StrLe(a, b) && StrLe(b, a)
    ensures a == b
    decreases |a|
  {
    if a != [] && b != [] {
      StrLeAntisymmetric(a[1..], b[1..]);
      assert a == [a[0]] + a[1..] && b == [b[0]] + b[1..];
    }
  }

  // ---------------------------------------------------------------------
  // "" + code

  predicate IsDigit(c: char)
  {
    '0' <= c <= '9'
  }

  predicate AllDigits(s: string)
  {
    forall i :: 0 <= i < |s| ==> IsDigit(s[i])
  }

  function DigitChar(d: int): (c: char)
    requires 0 <= d < 10
    ensures IsDigit(c) && c as int - '0' as int == d
  {
    ('0' as int + d) as char
  }

  /** The decimal digits of `n`, most significant first, without leading zeros. */
  function NatDigits(n: nat): (r: string)
    ensures r != [] && AllDigits(r)
    ensures r[0] == '0' ==> n == 0
  {
    if n < 10 then [DigitChar(n)] else NatDigits(n / 10) + [DigitChar(n % 10)]
  }

  /** `Integer.toString(n)`, which `"" + n` produces. */
  function DecimalString(n: int): (r: string)
    ensures r != []
    ensures n < 0 <==> r[0] == '-'
  {
    if n < 0 then "-" + NatDigits(-n) else NatDigits(n)
  }

  /** The value of a string of decimal digits. */
  function ParseNat(s: string): nat
    requires AllDigits(s)
  {
    if s == [] then 0 else 10 * ParseNat(s[..|s| - 1]) + (s[|s| - 1] as int - '0' as int)
  }

  /** `Integer.parseInt` restricted to what `DecimalString` produces. */
  function ParseDecimal(s: string): Option<int>
  {
    if |s| > 1 && s[0] == '-' && AllDigits(s[1..]) then Some(0 - ParseNat(s[1..]) as int)
    else if s != [] && AllDigits(s) then Some(ParseNat(s))
    else None
  }

  lemma {:induction false} ParseNatDigits(n: nat)
    ensures ParseNat(NatDigits(n)) == n
  {
    if n >= 10 {
      var d := NatDigits(n);
      ParseNatDigits(n / 10);
      assert d[..|d| - 1] == NatDigits(n / 10);
    }
  }

  /** The decimal rendering of an error code reads back as that code. */
  lemma DecimalRoundTrip(n: int)
    ensures ParseDecimal(DecimalString(n)) == Some(n)
  {
    if n < 0 {
      ParseNatDigits(-n);
      assert DecimalString(n)[1..] == NatDigits(-n);
    } else {
      ParseNatDigits(n);
    }
  }

  /** Distinct codes render as distinct strings. */
  lemma DecimalStringInjective(a: int, b: int)
    requires DecimalString(a) == DecimalString(b)
    ensures a == b
  {
    DecimalRoundTrip(a);
    DecimalRoundTrip(b);
  }
}
