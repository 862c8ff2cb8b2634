/** The string operations the application applies to partner names:
    `trim()`, `toUpperCase()` and the default ordering of `Array.prototype.sort`. */
module Text {

  /** The characters `String.prototype.trim` removes: ECMAScript WhiteSpace
      (tab, vertical tab, form feed, space, no-break space, byte-order mark and
      every Zs space separator) and LineTerminator (LF, CR, LS, PS); tab,
      LF, vertical tab, form feed and CR are the consecutive codes 9 to 13. */
  predicate IsSpace(c: char)
  {
    if c <= ' ' then c == ' ' || '\t' <= c <= '\r'
    else if c < '\U{2000}' then c == '\U{00A0}' || c == '\U{1680}'
    else if c <= '\U{200A}' then true
    else
      || c == '\U{2028}' || c == '\U{2029}' || c == '\U{202F}'
      || c == '\U{205F}' || c == '\U{3000}' || c == '\U{FEFF}'
  }

  /** `s` has no removable space at either end. */
  predicate IsTrimmed(s: string)
  {
    s == [] || (!IsSpace(s[0]) && !IsSpace(s[|s| - 1]))
  }

  /** `s` with its leading spaces removed. */
  function TrimStart(s: string): (r: string)
    ensures |r| <= |s| && r == s[|s| - |r|..]
    ensures forall k :: 0 <= k < |s| - |r| ==> IsSpace(s[k])
    ensures r == [] || !IsSpace(r[0])
  {
    if s != [] && IsSpace(s[0]) then TrimStart(s[1..]) else s
  }

  /** `s` with its trailing spaces removed. */
  function TrimEnd(s: string): (r: string)
    ensures |r| <= |s| && r == s[..|r|]
    ensures forall k :: |r| <= k < |s| ==> IsSpace(s[k])
    ensures r == [] || !IsSpace(r[|r| - 1])
  {
    if s != [] && IsSpace(s[|s| - 1]) then TrimEnd(s[..|s| - 1]) else s
  }

  /** `s.trim()`. */
  function Trim(s: string): (r: string)
    ensures |r| <= |s|
    ensures IsTrimmed(r)
  {
    TrimEnd(TrimStart(s))
  }

  /** How many spaces open `s`: where its trimmed form starts. */
  function LeadingSpaces(s: string): (n: nat)
    ensures n <= |s|
    ensures forall k :: 0 <= k < n ==> IsSpace(s[k])
    ensures n == |s| || !IsSpace(s[n])
  {
    |s| - |TrimStart(s)|
  }

  /** The trimmed form is the slice of `s` after its leading spaces, cut
      before its trailing ones. */
  lemma TrimIsSlice(s: string)
    ensures LeadingSpaces(s) + |Trim(s)| <= |s|
    ensures Trim(s) == s[LeadingSpaces(s)..LeadingSpaces(s) + |Trim(s)|]
    ensures forall k :: LeadingSpaces(s) + |Trim(s)| <= k < |s| ==> IsSpace(s[k])
  {
    var t := TrimStart(s);
    var lead := |s| - |t|;
    SliceOfSuffix(s, t, lead, |TrimEnd(t)|);
  }

  lemma SliceOfSuffix(s: string, t: string, lead: nat, m: nat)
    requires lead <= |s| && t == s[lead..] && m <= |t|
    requires forall k :: m <= k < |t| ==> IsSpace(t[k])
    ensures t[..m] == s[lead..lead + m]
    ensures forall k :: lead + m <= k < |s| ==> IsSpace(s[k])
  {
    forall k | lead + m <= k < |s| ensures IsSpace(s[k]) {
      assert s[k] == t[k - lead];
    }
  }

  /** The trimmed form is empty exactly when `s` is all spaces. */
  lemma TrimBlank(s: string)
    ensures Trim(s) == [] <==> forall k :: 0 <= k < |s| ==> IsSpace(s[k])
  {
    TrimIsSlice(s);
    var lead := LeadingSpaces(s);
    if Trim(s) != [] {
      assert s[lead] == Trim(s)[0];
    }
  }

  /** The blank-name test of the submit handler: `!s.trim()`. */
  predicate IsBlank(s: string)
  {
    Trim(s) == []
  }

  lemma TrimOfTrimmed(s: string)
    requires IsTrimmed(s)
    ensures Trim(s) == s
  {
  }

  predicate IsLowerAscii(c: char)
  {
    'a' <= c <= 'z'
  }

  /** `toUpperCase` on one character, for the ASCII letters. */
  function UpperChar(c: char): char
  {
    if IsLowerAscii(c) then (c as int - 32) as char else c
  }

  /** `s.toUpperCase()`, character by character. */
  function Upper(s: string): string
  {
    seq(|s|, i requires 0 <= i < |s| => UpperChar(s[i]))
  }

  /** Upper-casing keeps the length, leaves no lower-case ASCII letter,
      turns each lower-case letter into its capital, changes nothing else
      and does not change which characters are spaces. */
  lemma UpperShape(s: string)
    ensures |Upper(s)| == |s|
    ensures forall k :: 0 <= k < |s| ==> !IsLowerAscii(Upper(s)[k])
    ensures forall k :: 0 <= k < |s| && !IsLowerAscii(s[k]) ==> Upper(s)[k] == s[k]
    ensures forall k :: 0 <= k < |s| && IsLowerAscii(s[k]) ==> Upper(s)[k] as int == s[k] as int - 32
    ensures forall k :: 0 <= k < |s| ==> (IsSpace(Upper(s)[k]) <==> IsSpace(s[k]))
  {
  }

  lemma UpperIdempotent(s: string)
    ensures Upper(Upper(s)) == Upper(s)
  {
    UpperShape(s);
    UpperShape(Upper(s));
  }

  /** The stored form of a partner name: `s.trim().toUpperCase()`. */
  function Normalize(s: string): (r: string)
    ensures |r| <= |s|
    ensures IsTrimmed(r)
    ensures forall k :: 0 <= k < |r| ==> !IsLowerAscii(r[k])
    ensures r == [] <==> IsBlank(s)
  {
    UpperShape(Trim(s));
    Upper(Trim(s))
  }

  /** Normalizing a stored name again changes nothing, so the names the
      application writes are fixed points of its own normalization. */
  lemma NormalizeIdempotent(s: string)
    ensures Normalize(Normalize(s)) == Normalize(s)
  {
    var n := Normalize(s);
    TrimOfTrimmed(n);
    UpperIdempotent(Trim(s));
  }

  /** Upper-casing a name typed into the partner field gives its stored form
      exactly when the typed name has no space at either end: outer white
      space is the one difference normalization still makes. */
  lemma {:induction false} StoredFormOfUpper(t: string)
    ensures Normalize(Upper(t)) == Upper(t) <==> IsTrimmed(t)
  {
    var u := Upper(t);
    UpperShape(t);
    assert IsTrimmed(u) <==> IsTrimmed(t) by {
      if t != [] {
        assert IsSpace(u[0]) <==> IsSpace(t[0]);
        assert IsSpace(u[|u| - 1]) <==> IsSpace(t[|t| - 1]);
      }
    }
    if IsTrimmed(t) {
      TrimOfTrimmed(u);
      UpperIdempotent(t);
    }
  }

  /** A trailing space is the whole difference between a trimmed name
      followed by a space and its stored form. */
  lemma NormalizeTrailingSpace(s: string)
    requires s != [] && IsTrimmed(s)
    ensures Normalize(s + " ") == Upper(s)
  {
    var t := s + " ";
    assert TrimStart(t) == t;
    assert t[..|t| - 1] == s;
    assert TrimEnd(t) == TrimEnd(s);
    TrimOfTrimmed(s);
  }

  /** A name already in stored form is left unchanged by upper-casing. */
  lemma UpperOfStored(s: string)
    ensures Normalize(s) == s ==> Upper(s) == s
  {
    UpperIdempotent(Trim(s));
  }

  /** The default order of `Array.prototype.sort` on strings: lexicographic by
      character, a proper prefix before its extensions. */
  predicate Less(a: string, b: string)
  {
    if a == [] then b != []
    else b != [] && (a[0] < b[0] || (a[0] == b[0] && Less(a[1..], b[1..])))
  }

  lemma {:induction false} LessIrreflexive(a: string)
    ensures !Less(a, a)
  {
    if a != [] {
      LessIrreflexive(a[1..]);
    }
  }

  lemma {:induction false} LessTransitive(a: string, b: string, c: string)
    requires Less(a, b) && Less(b, c)
    ensures Less(a, c)
  {
    if a != [] && b != [] && c != [] && a[0] == b[0] == c[0] {
      LessTransitive(a[1..], b[1..], c[1..]);
    }
  }

  lemma {:induction false} LessTotal(a: string, b: string)
    ensures a == b || Less(a, b) || Less(b, a)
  {
    if a != [] && b != [] && a[0] == b[0] {
      LessTotal(a[1..], b[1..]);
      if a[1..] == b[1..] {
        assert a == [a[0]] + a[1..] && b == [b[0]] + b[1..];
      }
    }
  }

  lemma LessAsymmetric(a: string, b: string)
    ensures Less(a, b) ==> !Less(b, a)
  {
    if Less(a, b) && Less(b, a) {
      LessTransitive(a, b, a);
      LessIrreflexive(a);
    }
  }
}
