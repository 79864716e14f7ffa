/** The base64 alphabet of section 4 of RFC 4648 (with the `=` pad) and the
    sanitiser that both encryption.js and ggwaveWrapper.js apply to pasted
    text: `(input || '').replace(/[^A-Za-z0-9+/=]/g, '')`. */
module Base64Text {
  import opened JsValue

  predicate IsBase64Char(ch: char) {
    || ('A' <= ch <= 'Z')
    || ('a' <= ch <= 'z')
    || ('0' <= ch <= '9')
    || ch == '+' || ch == '/' || ch == '='
  }

  /** Every character is in the alphabet (the regex `^[A-Za-z0-9+/=]*$`). */
  predicate IsBase64Text(s: string) {
    forall i :: 0 <= i < |s| ==> IsBase64Char(s[i])
  }

  /** How many times `ch` occurs in `s`. */
  function Count(s: string, ch: char): nat {
    if |s| == 0 then 0 else (if s[0] == ch then 1 else 0) + Count(s[1..], ch)
  }

  /** Drops every character outside the base64 alphabet, keeping the others in order. */
  function Sanitize(s: string): (r: string)
    ensures IsBase64Text(r)
    ensures |r| <= |s|
  {
    if |s| == 0 then ""
    else (if IsBase64Char(s[0]) then [s[0]] else []) + Sanitize(s[1..])
  }

  /** `null`, `undefined` and the empty string all sanitise to `''`. */
  function SanitizeNullable(input: Option<string>): (r: string)
    ensures input.None? ==> r == ""
    ensures input.Some? ==> r == Sanitize(input.value)
  {
    Sanitize(input.GetOr(""))
  }

  lemma {:induction false} SanitizeAppend(a: string, b: string)
    ensures Sanitize(a + b) == Sanitize(a) + Sanitize(b)
    decreases |a|
  {
    if |a| > 0 {
      assert (a + b)[1..] == a[1..] + b;
      SanitizeAppend(a[1..], b);
    } else {
      assert a + b == b;
    }
  }

  /** Already clean text passes through unchanged. */
  lemma {:induction false} SanitizeKeepsClean(s: string)
    requires IsBase64Text(s)
    ensures Sanitize(s) == s
    decreases |s|
  {
    if |s| > 0 {
      SanitizeKeepsClean(s[1..]);
    }
  }

  /** Sanitising twice is sanitising once. */
  lemma SanitizeIdempotent(s: string)
    ensures Sanitize(Sanitize(s)) == Sanitize(s)
  {
    SanitizeKeepsClean(Sanitize(s));
  }

  /** Each alphabet character survives as often as it occurs; every other
      character disappears. Together with `SanitizeAppend` this pins the
      sanitiser down as the in-order filter. */
  lemma {:induction false} SanitizeCounts(s: string, ch: char)
    ensures Count(Sanitize(s), ch) == if IsBase64Char(ch) then Count(s, ch) else 0
    decreases |s|
  {
    if |s| > 0 {
      SanitizeCounts(s[1..], ch);
      var head: string := if IsBase64Char(s[0]) then [s[0]] else [];
      CountAppend(head, Sanitize(s[1..]), ch);
    }
  }

  lemma {:induction false} CountAppend(a: string, b: string, ch: char)
    ensures Count(a + b, ch) == Count(a, ch) + Count(b, ch)
    decreases |a|
  {
    if |a| > 0 {
      assert (a + b)[1..] == a[1..] + b;
      CountAppend(a[1..], b, ch);
    } else {
      assert a + b == b;
    }
  }

  /** Base64 text has no white space, so `trim` leaves it alone. */
  lemma Base64TextIsTrimmed(s: string)
    requires IsBase64Text(s)
    ensures Trim(s) == s
  {
    if |s| > 0 {
      assert IsBase64Char(s[0]) && IsBase64Char(s[|s| - 1]);
    }
    TrimUntouched(s);
  }
}
