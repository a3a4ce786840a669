/** The pure helpers of the shared utility file: slug normalisation, discount percentage,
    phone validation and formatting, truncation and initials. */
module Utils {
  import opened Wrappers
  import opened Text
  import Seqs

  predicate SlugAlnum(c: char) {
    'a' <= c <= 'z' || '0' <= c <= '9'
  }

  predicate SlugChar(c: char) {
    SlugAlnum(c) || c == '-'
  }

  predicate IsHyphen(c: char) {
    c == '-'
  }

  /** `[^a-z0-9 -]` removed: letters, digits, the space and the hyphen stay. */
  predicate KeptBySlug(c: char) {
    SlugAlnum(c) || c == ' ' || c == '-'
  }

  function KeepSlugChars(s: string): string {
    Seqs.Filter(s, KeptBySlug)
  }

  /** `.replace(/\s+/g, '-')`. */
  function SpacesToHyphens(s: string): string {
    CollapseRuns(s, IsSpace, '-')
  }

  /** `.replace(/-+/g, '-')`. */
  function SqueezeHyphens(s: string): string {
    CollapseRuns(s, IsHyphen, '-')
  }

  /** `generateSlug`: lower-case, drop other characters, white-space runs to '-', hyphen
      runs to one '-', then trim (which finds no white space left to remove). */
  function GenerateSlug(name: string): string {
    Trim(SqueezeHyphens(SpacesToHyphens(KeepSlugChars(Lower(name)))))
  }

  /** The slug is built from [a-z0-9-] only and never holds "--". */
  lemma GenerateSlugShape(name: string)
    ensures All(GenerateSlug(name), SlugChar)
    ensures Separated(GenerateSlug(name), IsHyphen)
  {
    var kept := KeepSlugChars(Lower(name));
    var hyphenated := SpacesToHyphens(kept);
    var squeezed := SqueezeHyphens(hyphenated);
    CollapseRunsChars(kept, IsSpace, '-', SlugChar);
    CollapseRunsChars(hyphenated, IsHyphen, '-', SlugChar);
    CollapseRunsSeparated(hyphenated, IsHyphen, '-');
    assert NoSpace(squeezed);
    TrimNoSpace(squeezed);
  }

  lemma {:induction false} KeepSlugCharsIdentity(s: string)
    requires All(s, SlugChar)
    ensures KeepSlugChars(s) == s
    decreases |s|
  {
    if |s| > 0 {
      KeepSlugCharsIdentity(s[1..]);
      assert [s[0]] + s[1..] == s;
    }
  }

  lemma LowerSlugIdentity(t: string)
    requires All(t, SlugChar)
    ensures Lower(t) == t
  {
    assert forall i :: 0 <= i < |t| ==> Lower(t)[i] == t[i];
  }

  lemma SpacesToHyphensIdentity(t: string)
    requires All(t, SlugChar)
    ensures SpacesToHyphens(t) == t
  {
    assert forall i :: 0 <= i < |t| ==> !IsSpace(t[i]);
    CollapseRunsIdentity(t, IsSpace, '-');
  }

  lemma SqueezeHyphensIdentity(t: string)
    requires Separated(t, IsHyphen)
    ensures SqueezeHyphens(t) == t
  {
    CollapseRunsIdentity(t, IsHyphen, '-');
  }

  /** A string that already has the slug's shape is left unchanged by every stage. */
  lemma SlugStagesIdentity(t: string)
    requires All(t, SlugChar) && Separated(t, IsHyphen)
    ensures GenerateSlug(t) == t
  {
    LowerSlugIdentity(t);
    KeepSlugCharsIdentity(t);
    SpacesToHyphensIdentity(t);
    SqueezeHyphensIdentity(t);
    assert NoSpace(t);
    TrimNoSpace(t);
  }

  /** Normalising a slug again changes nothing. */
  lemma GenerateSlugIdempotent(name: string)
    ensures GenerateSlug(GenerateSlug(name)) == GenerateSlug(name)
  {
    GenerateSlugShape(name);
    SlugStagesIdentity(GenerateSlug(name));
  }

  /** Unlike the route's slug, this one keeps a hyphen where the name had leading white
      space: " ring" becomes "-ring". */
  lemma GenerateSlugKeepsEdgeHyphen(w: string)
    requires |w| > 0 && All(w, SlugAlnum)
    ensures GenerateSlug(" " + w) == "-" + w
  {
    LeadingSpaceKept(w);
    LeadingSpaceHyphenated(w);
    LeadingHyphenKept(w);
    TrimNoSpace("-" + w);
  }

  lemma LeadingSpaceKept(w: string)
    requires All(w, SlugAlnum)
    ensures KeepSlugChars(Lower(" " + w)) == " " + w
  {
    var s := " " + w;
    assert forall i :: 0 <= i < |s| ==> Lower(s)[i] == s[i];
    assert Lower(s) == s;
    assert s[1..] == w;
    KeepSlugCharsIdentity(w);
  }

  lemma LeadingSpaceHyphenated(w: string)
    requires |w| > 0 && All(w, SlugAlnum)
    ensures SpacesToHyphens(" " + w) == "-" + w
  {
    assert SlugAlnum(w[0]);
    CollapseLeadingRun(' ', w, IsSpace, '-');
    SpacesToHyphensIdentity(w);
  }

  lemma LeadingHyphenKept(w: string)
    requires |w| > 0 && All(w, SlugAlnum)
    ensures SqueezeHyphens("-" + w) == "-" + w
    ensures NoSpace("-" + w)
  {
    var s := "-" + w;
    forall i | 0 <= i < |s| ensures !IsSpace(s[i]) {
      if i > 0 { assert s[i] == w[i - 1] && SlugAlnum(w[i - 1]); }
    }
    assert SlugAlnum(w[0]);
    CollapseLeadingRun('-', w, IsHyphen, '-');
    SqueezeHyphensIdentity(w);
  }

  /** `calculateDiscount(originalPrice, salePrice)` on whole rupees:
      `Math.round((o - s) / o * 100)`, or 0 when the sale price is absent, 0 or not lower. */
  function CalculateDiscount(originalPrice: nat, salePrice: Option<nat>): (r: int)
    ensures !TruthyNat(salePrice) || salePrice.value >= originalPrice ==> r == 0
    ensures TruthyNat(salePrice) && salePrice.value < originalPrice ==>
      var o, s := originalPrice as int, salePrice.value as int;
      0 <= r <= 100 && -o < 2 * o * r - 200 * (o - s) <= o
  {
    if !TruthyNat(salePrice) || salePrice.value >= originalPrice then 0
    else
      var o, s := originalPrice as int, salePrice.value as int;
      var r := (200 * (o - s) + o) / (2 * o);
      DiscountBounds(o, s, r);
      r
  }

  /** The rounded percentage is the nearest integer to 100·(o − s)/o, so it stays in [0, 100]. */
  lemma DiscountBounds(o: int, s: int, r: int)
    requires 0 < s < o && r == (200 * (o - s) + o) / (2 * o)
    ensures 0 <= r <= 100
    ensures -o < 2 * o * r - 200 * (o - s) <= o
  {
    var n := 200 * (o - s) + o;
    var d := 2 * o;
    assert d * r <= n < d * r + d;
    assert 0 < n < 201 * o;
    RatioBounds(n, d, r);
  }

  lemma RatioBounds(n: int, d: int, r: int)
    requires d > 0 && d * r <= n < d * r + d && 0 < n < 101 * d
    ensures 0 <= r <= 100
  {
  }

  /** The characters left once white space is removed, as `phone.replace(/\s/g, '')`. */
  predicate NotSpace(c: char) {
    !IsSpace(c)
  }

  function StripSpace(s: string): string {
    Seqs.Filter(s, NotSpace)
  }

  predicate TenDigits(s: string) {
    |s| == 10 && AllDigits(s)
  }

  /** `/^[+]?[91]?[0-9]{10}$/` as written: an optional '+', then an optional single '9' or
      '1', then exactly ten digits. */
  predicate PhonePatternAsWritten(s: string) {
    || TenDigits(s)
    || (|s| == 11 && (s[0] == '+' || s[0] == '9' || s[0] == '1') && TenDigits(s[1..]))
    || (|s| == 12 && s[0] == '+' && (s[1] == '9' || s[1] == '1') && TenDigits(s[2..]))
  }

  /** `isValidPhone` as written. */
  predicate IsValidPhoneAsWritten(phone: string) {
    PhonePatternAsWritten(StripSpace(phone))
  }

  /** What the pattern evidently meant, `/^(\+?91)?[0-9]{10}$/`: ten digits, optionally after
      the country code 91 with or without a '+'. */
  predicate PhonePattern(s: string) {
    || TenDigits(s)
    || (|s| == 12 && s[..2] == "91" && TenDigits(s[2..]))
    || (|s| == 13 && s[..3] == "+91" && TenDigits(s[3..]))
  }

  predicate IsValidPhone(phone: string) {
    PhonePattern(StripSpace(phone))
  }

  /** The as-written class `[91]` matches one character, so a number written with its "+91"
      prefix is refused while the corrected pattern takes it. */
  lemma PhoneAsWrittenRejectsCountryCode(d: string)
    requires TenDigits(d)
    ensures !IsValidPhoneAsWritten("+91" + d)
    ensures IsValidPhone("+91" + d)
  {
    var s := "+91" + d;
    assert NoSpace(s);
    NoSpaceStripped(s);
    assert s[..3] == "+91" && s[3..] == d;
  }

  /** Strings the as-written check accepts have 10 to 12 characters once spaces are gone. */
  lemma PhoneAsWrittenLength(phone: string)
    requires IsValidPhoneAsWritten(phone)
    ensures 10 <= |StripSpace(phone)| <= 12
  {
  }

  lemma {:induction false} NoSpaceStripped(s: string)
    requires NoSpace(s)
    ensures StripSpace(s) == s
    decreases |s|
  {
    if |s| > 0 {
      NoSpaceStripped(s[1..]);
      assert [s[0]] + s[1..] == s;
    }
  }

  /** The corrected check accepts every ten-digit number alone, after "91" and after "+91". */
  lemma PhoneAcceptsCountryCodeForms(d: string)
    requires TenDigits(d)
    ensures IsValidPhone(d) && IsValidPhone("91" + d) && IsValidPhone("+91" + d)
  {
    PrefixedNumberValid("", d);
    assert "" + d == d;
    PrefixedNumberValid("91", d);
    PrefixedNumberValid("+91", d);
  }

  lemma PrefixedNumberValid(p: string, d: string)
    requires TenDigits(d) && (p == "" || p == "91" || p == "+91")
    ensures IsValidPhone(p + d)
  {
    PrefixedNoSpace(p, d);
    NoSpaceStripped(p + d);
    PrefixedPattern(p, d);
  }

  lemma PrefixedNoSpace(p: string, d: string)
    requires TenDigits(d) && (p == "" || p == "91" || p == "+91")
    ensures NoSpace(p + d)
  {
    var s := p + d;
    assert NoSpace(p);
    forall i | 0 <= i < |s| ensures !IsSpace(s[i]) {
      if i >= |p| {
        assert s[i] == d[i - |p|];
      }
    }
  }

  lemma PrefixedPattern(p: string, d: string)
    requires TenDigits(d) && (p == "" || p == "91" || p == "+91")
    ensures PhonePattern(p + d)
  {
    var s := p + d;
    assert s[..|p|] == p && s[|p|..] == d;
    assert p == "" ==> s == d;
  }

  /** `truncateText(text, maxLength)`: short text is returned as is; otherwise the first
      `maxLength` characters, trimmed, followed by "...". */
  function TruncateText(text: string, maxLength: int): (r: string)
    ensures |text| <= maxLength ==> r == text
    ensures |text| > maxLength ==> 3 <= |r| <= (if maxLength < 0 then 0 else maxLength) + 3
  {
    if |text| <= maxLength then text
    else
      var keep := if maxLength < 0 then 0 else maxLength;
      Trim(text[..keep]) + "..."
  }

  /** A truncated text is the trimmed first `maxLength` characters (none for a negative
      length) followed by "...", so it neither starts nor ends its kept part with white space. */
  lemma TruncatedShape(text: string, maxLength: int)
    requires |text| > maxLength
    ensures var r := TruncateText(text, maxLength);
      var keep := if maxLength < 0 then 0 else maxLength;
      && r[|r| - 3..] == "..."
      && r[..|r| - 3] == Trim(text[..keep])
      && (|r| > 3 ==> !IsSpace(r[0]) && !IsSpace(r[|r| - 4]))
  {
    var keep := if maxLength < 0 then 0 else maxLength;
    var t := Trim(text[..keep]);
    assert TruncateText(text, maxLength) == t + "...";
    EllipsisParts(t);
  }

  lemma EllipsisParts(t: string)
    ensures var r := t + "...";
      && r[|r| - 3..] == "..." && r[..|r| - 3] == t
      && (|t| > 0 ==> r[0] == t[0] && r[|r| - 4] == t[|t| - 1])
  {
  }

  /** `name.split(' ')`: the pieces between single spaces, empty ones included. */
  function Split(s: string): (r: seq<string>)
    ensures |r| >= 1
    ensures forall i :: 0 <= i < |r| ==> ' ' !in r[i]
    decreases |s|
  {
    if |s| == 0 then [""]
    else
      var rest := Split(s[1..]);
      if s[0] == ' ' then [""] + rest
      else [[s[0]] + rest[0]] + rest[1..]
  }

  /** `pieces.join(' ')`. */
  function Join(pieces: seq<string>): string
    requires |pieces| >= 1
    decreases |pieces|
  {
    if |pieces| == 1 then pieces[0] else pieces[0] + " " + Join(pieces[1..])
  }

  /** Splitting on spaces and joining back with spaces gives the original string. */
  lemma {:induction false} JoinSplit(s: string)
    ensures Join(Split(s)) == s
    decreases |s|
  {
    if |s| > 0 {
      JoinSplit(s[1..]);
      var rest := Split(s[1..]);
      if s[0] == ' ' {
        assert ([""] + rest)[1..] == rest;
      } else {
        var r := [[s[0]] + rest[0]] + rest[1..];
        if |rest| > 1 {
          assert r[1..] == rest[1..];
        }
      }
    }
  }

  /** `word.charAt(0).toUpperCase()`, joined over the words. */
  function FirstLetters(words: seq<string>): string {
    if |words| == 0 then ""
    else (if |words[0]| == 0 then "" else [UpperChar(words[0][0])]) + FirstLetters(words[1..])
  }

  predicate NonEmptyWord(w: string) {
    |w| > 0
  }

  /** The joined initials are exactly the upper-cased first letters of the non-empty words,
      in order: an empty word (from a doubled or edge space) contributes nothing. */
  lemma {:induction false} FirstLettersOfNonEmptyWords(words: seq<string>)
    ensures InitialsOf(FirstLetters(words), Seqs.Filter(words, NonEmptyWord))
    decreases |words|
  {
    if |words| > 0 {
      FirstLettersOfNonEmptyWords(words[1..]);
      var tail := FirstLetters(words[1..]);
      var netail := Seqs.Filter(words[1..], NonEmptyWord);
      if |words[0]| > 0 {
        assert Seqs.Filter(words, NonEmptyWord) == [words[0]] + netail;
        assert FirstLetters(words) == [UpperChar(words[0][0])] + tail;
        ConsInitials(words[0], tail, netail);
      } else {
        assert Seqs.Filter(words, NonEmptyWord) == netail;
        assert FirstLetters(words) == "" + tail;
      }
    }
  }

  /** `letters` holds, position by position, the upper-cased first letter of each of `words`. */
  predicate InitialsOf(letters: string, words: seq<string>) {
    && |letters| == |words|
    && forall k :: 0 <= k < |words| ==> |words[k]| > 0 && letters[k] == UpperChar(words[k][0])
  }

  lemma ConsInitials(w: string, tail: string, netail: seq<string>)
    requires |w| > 0 && InitialsOf(tail, netail)
    ensures InitialsOf([UpperChar(w[0])] + tail, [w] + netail)
  {
    var letters := [UpperChar(w[0])] + tail;
    var ws := [w] + netail;
    forall k | 0 <= k < |ws| ensures |ws[k]| > 0 && letters[k] == UpperChar(ws[k][0]) {
      if k > 0 {
        assert ws[k] == netail[k - 1] && letters[k] == tail[k - 1];
      }
    }
  }

  /** `getInitials(name)`: the upper-cased first letters of the first two non-empty words
      of the name, or fewer when it has fewer. */
  function GetInitials(name: string): (r: string)
    ensures var ne := Seqs.Filter(Split(name), NonEmptyWord);
      && |r| == (if |ne| < 2 then |ne| else 2)
      && forall k :: 0 <= k < |r| ==> r[k] == UpperChar(ne[k][0])
  {
    var all := FirstLetters(Split(name));
    FirstLettersOfNonEmptyWords(Split(name));
    all[..if |all| < 2 then |all| else 2]
  }

  /** Every initial is the upper-cased first letter of some word of the name. */
  lemma {:induction false} FirstLettersFromWords(words: seq<string>, k: nat)
    requires k < |FirstLetters(words)|
    ensures exists j :: 0 <= j < |words| && |words[j]| > 0 && FirstLetters(words)[k] == UpperChar(words[j][0])
    decreases |words|
  {
    var head := if |words[0]| == 0 then "" else [UpperChar(words[0][0])];
    var tail := FirstLetters(words[1..]);
    assert FirstLetters(words) == head + tail;
    if k < |head| {
      assert FirstLetters(words)[k] == UpperChar(words[0][0]);
    } else {
      assert FirstLetters(words)[k] == tail[k - |head|];
      FirstLettersFromWords(words[1..], k - |head|);
      var j :| 0 <= j < |words[1..]| && |words[1..][j]| > 0 && tail[k - |head|] == UpperChar(words[1..][j][0]);
      assert words[1..][j] == words[j + 1];
    }
  }

  lemma {:induction false} SplitWord(w: string)
    requires ' ' !in w
    ensures Split(w) == [w]
    decreases |w|
  {
    if |w| > 0 {
      assert w[1..] == w[1..] && ' ' !in w[1..];
      SplitWord(w[1..]);
      assert [w[0]] + w[1..] == w;
    }
  }

  lemma {:induction false} SplitFirstWord(w: string, rest: string)
    requires ' ' !in w
    ensures Split(w + " " + rest) == [w] + Split(rest)
    decreases |w|
  {
    var s := w + " " + rest;
    if |w| == 0 {
      assert s[0] == ' ' && s[1..] == rest;
    } else {
      assert s[1..] == w[1..] + " " + rest;
      assert ' ' !in w[1..];
      SplitFirstWord(w[1..], rest);
      assert [w[0]] + w[1..] == w;
    }
  }

  /** A name of two words gets the upper-cased first letter of each. */
  lemma GetInitialsTwoWords(a: string, b: string)
    requires |a| > 0 && |b| > 0 && ' ' !in a && ' ' !in b
    ensures GetInitials(a + " " + b) == [UpperChar(a[0]), UpperChar(b[0])]
  {
    SplitFirstWord(a, b);
    SplitWord(b);
    var words := [a, b];
    assert Split(a + " " + b) == words;
    assert words[1..] == [b] && [b][1..] == [];
    assert FirstLetters([b]) == [UpperChar(b[0])];
    assert FirstLetters(words) == [UpperChar(a[0]), UpperChar(b[0])];
  }

  /** `phone.replace(/\D/g, '')`. */
  function Digits(s: string): (r: string)
    ensures AllDigits(r)
  {
    if |s| == 0 then "" else (if IsDigit(s[0]) then [s[0]] else "") + Digits(s[1..])
  }

  /** `replace(/\D/g, '')` keeps exactly the digits of the phone, each as often as it
      occurs and in their order: it is the filter of the string by `IsDigit`. */
  lemma {:induction false} DigitsAreTheFilter(s: string)
    ensures Digits(s) == Seqs.Filter(s, IsDigit)
    decreases |s|
  {
    if |s| > 0 {
      DigitsAreTheFilter(s[1..]);
    }
  }

  lemma {:induction false} DigitsAppend(a: string, b: string)
    ensures Digits(a + b) == Digits(a) + Digits(b)
    decreases |a|
  {
    if |a| == 0 {
      assert a + b == b;
    } else {
      var c := a + b;
      var head := if IsDigit(a[0]) then [a[0]] else "";
      assert c[0] == a[0] && c[1..] == a[1..] + b;
      assert Digits(c) == head + Digits(a[1..] + b);
      assert Digits(a) == head + Digits(a[1..]);
      DigitsAppend(a[1..], b);
    }
  }

  /** `formatPhone`: ten digits (after dropping everything else) become "+91 ddddd ddddd";
      anything else comes back unchanged. */
  function FormatPhone(phone: string): (r: string)
    ensures |Digits(phone)| != 10 ==> r == phone
    ensures |Digits(phone)| == 10 ==> |r| == 15 && r[..4] == "+91 " && r[9] == ' '
  {
    var cleaned := Digits(phone);
    if |cleaned| == 10 then "+91 " + cleaned[..5] + " " + cleaned[5..] else phone
  }

  /** The formatted number keeps the digits, behind the country code, in order. */
  lemma FormatPhoneKeepsDigits(phone: string)
    requires |Digits(phone)| == 10
    ensures Digits(FormatPhone(phone)) == "91" + Digits(phone)
  {
    var d := Digits(phone);
    FormattedDigits(d[..5], d[5..]);
    assert d[..5] + d[5..] == d;
  }

  lemma FormattedDigits(a: string, b: string)
    requires AllDigits(a) && AllDigits(b)
    ensures Digits("+91 " + a + " " + b) == "91" + (a + b)
  {
    CountryCodeDigits();
    DigitsWithSeparators("+91 ", a, " ", b);
  }

  /** Digits around a separator with no digits keep only the prefix's digits and their own. */
  lemma DigitsWithSeparators(p: string, a: string, q: string, b: string)
    requires AllDigits(a) && AllDigits(b) && Digits(q) == ""
    ensures Digits(p + a + q + b) == Digits(p) + (a + b)
  {
    AllDigitsKept(a);
    AllDigitsKept(b);
    DigitsAroundSeparators(p, a, q, b);
  }

  lemma DigitsAroundSeparators(p: string, a: string, q: string, b: string)
    ensures Digits(p + a + q + b) == Digits(p) + Digits(a) + Digits(q) + Digits(b)
  {
    assert p + a + q + b == p + (a + (q + b));
    DigitsAppend(p, a + (q + b));
    DigitsAppend(a, q + b);
    DigitsAppend(q, b);
  }

  lemma CountryCodeDigits()
    ensures Digits(" ") == "" && Digits("+91 ") == "91"
  {
    assert "+91 "[1..] == "91 " && "91 "[1..] == "1 " && "1 "[1..] == " " && " "[1..] == "";
  }

  lemma {:induction false} AllDigitsKept(s: string)
    requires AllDigits(s)
    ensures Digits(s) == s
    decreases |s|
  {
    if |s| > 0 {
      AllDigitsKept(s[1..]);
      assert [s[0]] + s[1..] == s;
    }
  }

  /** Formatting an already formatted number changes nothing. */
  lemma FormatPhoneIdempotent(phone: string)
    ensures FormatPhone(FormatPhone(phone)) == FormatPhone(phone)
  {
    if |Digits(phone)| == 10 {
      FormatPhoneKeepsDigits(phone);
    }
  }
}
