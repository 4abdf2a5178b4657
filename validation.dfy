/**
  Syntactic checks on registration fields (src/user/validation.rs).
  Rust's `str::trim` strips characters with the Unicode White_Space property,
  and `str::len` counts UTF-8 bytes, not characters; both are modelled exactly.
 */
module Validation {
  import opened Common

  const EmptyUsername: string := "Username cannot be empty"
  const ShortUsername: string := "Username must be at least 3 characters long"
  const EmptyEmail: string := "Email cannot be empty"
  const MalformedEmail: string := "Invalid email format"
  const ShortPassword: string := "Password must be at least 8 characters long"

  /** `char::is_whitespace`: the Unicode White_Space property. */
  predicate IsWhitespace(c: char) {
    var n := c as int;
    (0x09 <= n <= 0x0D) || n == 0x20 || n == 0x85 || n == 0xA0 || n == 0x1680
    || (0x2000 <= n <= 0x200A) || n == 0x2028 || n == 0x2029 || n == 0x202F
    || n == 0x205F || n == 0x3000
  }

  /** Number of bytes `c` takes in UTF-8. */
  function Utf8Width(c: char): (w: nat)
    ensures 1 <= w <= 4
    ensures w == 1 <==> IsAscii(c)
  {
    if c as int < 0x80 then 1
    else if c as int < 0x800 then 2
    else if c as int < 0x1_0000 then 3
    else 4
  }

  predicate IsAscii(c: char) {
    c as int < 0x80
  }

  /** `str::len`: the UTF-8 byte length. */
  function ByteLen(s: string): (n: nat)
    ensures |s| <= n <= 4 * |s|
  {
    if |s| == 0 then 0 else Utf8Width(s[0]) + ByteLen(s[1..])
  }

  /** A string is exactly as long in bytes as in characters when, and only when, it is ASCII. */
  lemma {:induction false} ByteLenBounds(s: string)
    ensures ByteLen(s) == |s| <==> forall i :: 0 <= i < |s| ==> IsAscii(s[i])
  {
    if |s| > 0 {
      ByteLenBounds(s[1..]);
      assert forall i :: 1 <= i < |s| ==> s[1..][i - 1] == s[i];
    }
  }

  /** Scan forward from `i` over whitespace: the start of the text `trim` keeps. */
  function SkipLeading(s: string, i: nat): (lo: nat)
    requires i <= |s|
    requires forall k :: 0 <= k < i ==> IsWhitespace(s[k])
    ensures i <= lo <= |s|
    ensures forall k :: 0 <= k < lo ==> IsWhitespace(s[k])
    ensures lo == |s| || !IsWhitespace(s[lo])
    decreases |s| - i
  {
    if i < |s| && IsWhitespace(s[i]) then SkipLeading(s, i + 1) else i
  }

  /** Scan backward from `j`, never below `lo`, over whitespace: the end of the text `trim` keeps. */
  function SkipTrailing(s: string, lo: nat, j: nat): (hi: nat)
    requires lo <= j <= |s|
    requires forall k :: j <= k < |s| ==> IsWhitespace(s[k])
    ensures lo <= hi <= j
    ensures forall k :: hi <= k < |s| ==> IsWhitespace(s[k])
    ensures hi == lo || !IsWhitespace(s[hi - 1])
    decreases j
  {
    if lo < j && IsWhitespace(s[j - 1]) then SkipTrailing(s, lo, j - 1) else j
  }

  /** Where the kept text starts and ends. */
  function TrimLo(s: string): nat {
    SkipLeading(s, 0)
  }

  function TrimHi(s: string): nat {
    SkipTrailing(s, TrimLo(s), |s|)
  }

  /** `str::trim`: the slice between the leading and the trailing whitespace. */
  function Trim(s: string): (r: string)
    ensures TrimLo(s) <= TrimHi(s) <= |s| && r == s[TrimLo(s)..TrimHi(s)]
    ensures forall k :: 0 <= k < TrimLo(s) ==> IsWhitespace(s[k])
    ensures forall k :: TrimHi(s) <= k < |s| ==> IsWhitespace(s[k])
    ensures r == [] || (!IsWhitespace(r[0]) && !IsWhitespace(r[|r| - 1]))
  {
    var lo, hi := TrimLo(s), TrimHi(s);
    assert lo < hi ==> s[lo..hi][0] == s[lo] && s[lo..hi][hi - lo - 1] == s[hi - 1];
    s[lo..hi]
  }

  /** Trimming yields the empty string exactly for empty or all-whitespace input. */
  lemma TrimEmpty(s: string)
    ensures Trim(s) == [] <==> forall k :: 0 <= k < |s| ==> IsWhitespace(s[k])
  {
    if Trim(s) != [] {
      assert s[TrimLo(s)] == Trim(s)[0];
    }
  }

  /** Trimming only removes whitespace, so a non-whitespace character survives it. */
  lemma TrimKeeps(s: string, c: char)
    requires !IsWhitespace(c)
    ensures c in Trim(s) <==> c in s
  {
    var r, i := Trim(s), TrimLo(s);
    if c in r {
      var k :| 0 <= k < |r| && r[k] == c;
      assert s[i + k] == c;
    }
    if c in s {
      var k :| 0 <= k < |s| && s[k] == c;
      assert i <= k < i + |r|;
      assert r[k - i] == c;
    }
  }

  /** Trimming yields exactly the slice between whitespace-only margins, when that slice
      starts and ends with a non-whitespace character. */
  lemma TrimBetween(s: string, a: nat, b: nat)
    requires a < b <= |s|
    requires forall k :: 0 <= k < a ==> IsWhitespace(s[k])
    requires forall k :: b <= k < |s| ==> IsWhitespace(s[k])
    requires !IsWhitespace(s[a]) && !IsWhitespace(s[b - 1])
    ensures Trim(s) == s[a..b]
  {
    var r, i := Trim(s), TrimLo(s);
    assert i <= a by {
      assert !IsWhitespace(s[a]);
    }
    assert a < i + |r| by {
      assert !IsWhitespace(s[a]);
    }
    assert i == a by {
      assert r[0] == s[i];
    }
    assert i + |r| == b by {
      assert !IsWhitespace(s[b - 1]);
      assert r[|r| - 1] == s[i + |r| - 1];
    }
  }

  /** Surrounding whitespace of any amount is ignored: trimming recovers the inner text. */
  lemma TrimPadded(before: string, t: string, after: string)
    requires forall k :: 0 <= k < |before| ==> IsWhitespace(before[k])
    requires forall k :: 0 <= k < |after| ==> IsWhitespace(after[k])
    requires t == [] || (!IsWhitespace(t[0]) && !IsWhitespace(t[|t| - 1]))
    ensures Trim(before + t + after) == t
  {
    var s := before + t + after;
    var a, b := |before|, |before| + |t|;
    forall k | 0 <= k < a
      ensures IsWhitespace(s[k])
    {
      assert s[k] == before[k];
    }
    forall k | b <= k < |s|
      ensures IsWhitespace(s[k])
    {
      assert s[k] == after[k - b];
    }
    if t == [] {
      TrimEmpty(s);
    } else {
      assert s[a] == t[0] && s[b - 1] == t[|t| - 1];
      TrimBetween(s, a, b);
      assert s[a..b] == t;
    }
  }

  /** `validate_username`: non-empty after trimming, then at least 3 bytes after trimming. */
  function ValidateUsername(username: string): (r: Result<(), string>)
    ensures r.Ok? <==> ByteLen(Trim(username)) >= 3
    ensures r == Err(EmptyUsername) <==> forall k :: 0 <= k < |username| ==> IsWhitespace(username[k])
    ensures r.Err? ==> r.error == EmptyUsername || r.error == ShortUsername
  {
    var name := Trim(username);
    TrimEmpty(username);
    if |name| == 0 then Err(EmptyUsername)
    else if ByteLen(name) < 3 then Err(ShortUsername)
    else Ok(())
  }

  /** `validate_email`: non-empty after trimming, then contains both `@` and `.`. */
  function ValidateEmail(email: string): (r: Result<(), string>)
    ensures r.Ok? <==> '@' in email && '.' in email
    ensures r == Err(EmptyEmail) <==> forall k :: 0 <= k < |email| ==> IsWhitespace(email[k])
    ensures r.Err? ==> r.error == EmptyEmail || r.error == MalformedEmail
  {
    var e := Trim(email);
    TrimEmpty(email);
    TrimKeeps(email, '@');
    TrimKeeps(email, '.');
    if |e| == 0 then Err(EmptyEmail)
    else if !('@' in e) || !('.' in e) then Err(MalformedEmail)
    else Ok(())
  }

  /** `validate_password`: at least 8 bytes, untrimmed, no character classes. */
  function ValidatePassword(password: string): (r: Result<(), string>)
    ensures r.Ok? <==> ByteLen(password) >= 8
    ensures r.Err? ==> r.error == ShortPassword
  {
    if ByteLen(password) < 8 then Err(ShortPassword) else Ok(())
  }

  /** Every check the registration form needs, in the order they run. */
  predicate FieldsValid(username: string, email: string, password: string) {
    ValidateUsername(username).Ok? && ValidateEmail(email).Ok? && ValidatePassword(password).Ok?
  }

  /** Any text of three or more characters is an acceptable username, whatever the characters
      and however long, and any surrounding whitespace is ignored. */
  lemma UsernameNoUpperBound(before: string, name: string, after: string)
    requires forall k :: 0 <= k < |before| ==> IsWhitespace(before[k])
    requires forall k :: 0 <= k < |after| ==> IsWhitespace(after[k])
    requires |name| >= 3 && !IsWhitespace(name[0]) && !IsWhitespace(name[|name| - 1])
    ensures ValidateUsername(before + name + after).Ok?
  {
    TrimPadded(before, name, after);
    ByteLenBounds(name);
  }

  /** A password of eight or more characters always passes; an ASCII one passes only then. */
  lemma PasswordLength(password: string)
    ensures |password| >= 8 ==> ValidatePassword(password).Ok?
    ensures (forall i :: 0 <= i < |password| ==> IsAscii(password[i]))
      ==> (ValidatePassword(password).Ok? <==> |password| >= 8)
  {
    ByteLenBounds(password);
  }

  /** Positions are not checked: `.@` is an acceptable email. */
  lemma EmailShapeUnchecked()
    ensures ValidateEmail(".@").Ok?
    ensures !ValidateEmail("user@example").Ok?
  {
    assert ".@"[1] == '@' && ".@"[0] == '.';
    assert forall k :: 0 <= k < |"user@example"| ==> "user@example"[k] != '.';
  }

  /** Length is measured in bytes: two two-byte letters make an acceptable username,
      and four of them an acceptable password. */
  lemma LengthCountsBytes()
    ensures ValidateUsername("ää").Ok?
    ensures ValidatePassword("ääää").Ok?
  {
    var u := "ää";
    assert !IsWhitespace(u[0]) && !IsWhitespace(u[1]);
    TrimPadded([], u, []);
    assert [] + u + [] == u;
  }
}
