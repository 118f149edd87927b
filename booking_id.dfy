/** Booking reference generation: `BK-<timestamp snippet>-<random chars>`, with
    the clock reading and the base-36 rendering of the random number passed in. */
module BookingId {
  import opened Text

  /** What `Math.random().toString(36)` can produce: "0" (for 0) or "0."
      followed by base-36 digits. */
  predicate IsRandomBase36(s: string)
  {
    s == "0" || (|s| >= 2 && s[0] == '0' && s[1] == '.' && forall i :: 2 <= i < |s| ==> IsBase36Digit(s[i]))
  }

  predicate IsBase36Digit(c: char) { IsDigit(c) || 'a' <= c <= 'z' }

  predicate IsUpperBase36Digit(c: char) { IsDigit(c) || 'A' <= c <= 'Z' }

  /** `Date.now().toString().slice(-8)`: the last eight digits of the clock. */
  function TimestampPart(now: nat): (t: string)
    ensures 1 <= |t| <= 8 && AllDigits(t)
    ensures |t| <= |DecimalString(now)| && t == DecimalString(now)[|DecimalString(now)| - |t|..]
    ensures |t| == if |DecimalString(now)| <= 8 then |DecimalString(now)| else 8
  {
    SliceLast(DecimalString(now), 8)
  }

  /** `random.substring(2, 6).toUpperCase()`: up to four characters after "0.". */
  function RandomPart(random36: string): (r: string)
    ensures |r| <= 4
    ensures |r| == if |random36| >= 6 then 4 else if |random36| <= 2 then 0 else |random36| - 2
    ensures forall i :: 0 <= i < |r| ==> r[i] == UpperChar(random36[2 + i])
  {
    ToUpper(Slice(random36, 2, 6))
  }

  /** `generateBookingId()` with `Date.now()` and `Math.random().toString(36)`
      as parameters: a deterministic function of the two. */
  function GenerateBookingId(now: nat, random36: string): (id: string)
    ensures 5 <= |id| <= 16 && id[..3] == "BK-"
    ensures 3 + |TimestampPart(now)| < |id| && id[3 + |TimestampPart(now)|] == '-'
  {
    "BK-" + TimestampPart(now) + "-" + RandomPart(random36)
  }

  /** The random part consists of upper-case base-36 digits. */
  lemma RandomPartChars(random36: string)
    requires IsRandomBase36(random36)
    ensures forall i :: 0 <= i < |RandomPart(random36)| ==> IsUpperBase36Digit(RandomPart(random36)[i])
  {
    var r := RandomPart(random36);
    forall i | 0 <= i < |r|
      ensures IsUpperBase36Digit(r[i])
    {
      assert IsBase36Digit(random36[2 + i]);
    }
  }

  /** The timestamp part has exactly eight digits once the clock reads at least 10^7. */
  lemma TimestampEightDigits(now: nat)
    requires now >= Pow10(7)
    ensures |TimestampPart(now)| == 8
  {
    DecimalLength(now, 7);
  }

  lemma NoHyphenInParts(now: nat, random36: string)
    requires IsRandomBase36(random36)
    ensures '-' !in TimestampPart(now) && '-' !in RandomPart(random36)
  {
    var t, r := TimestampPart(now), RandomPart(random36);
    assert forall i | 0 <= i < |t| :: t[i] != '-';
    RandomPartChars(random36);
    assert forall i | 0 <= i < |r| :: r[i] != '-';
  }

  /** Splitting a booking id on "-" gives back exactly "BK", the timestamp part
      and the random part. */
  lemma BookingIdFields(now: nat, random36: string)
    requires IsRandomBase36(random36)
    ensures Split(GenerateBookingId(now, random36), '-') == ["BK", TimestampPart(now), RandomPart(random36)]
  {
    NoHyphenInParts(now, random36);
    SplitThreeFields(TimestampPart(now), RandomPart(random36));
  }

  /** "BK-" + t + "-" + r splits back into its three fields when t and r hold no "-". */
  lemma SplitThreeFields(t: string, r: string)
    requires '-' !in t && '-' !in r
    ensures Split("BK-" + t + "-" + r, '-') == ["BK", t, r]
  {
    var parts := ["BK", t, r];
    assert '-' !in parts[0] by { assert "BK" == ['B', 'K']; }
    assert forall i :: 0 <= i < |parts| ==> '-' !in parts[i];
    SplitJoin(parts, '-');
    JoinThree("BK", t, r, '-');
    assert "BK-" == "BK" + ['-'] && "-" == ['-'];
  }

  lemma JoinThree(a: string, b: string, c: string, sep: char)
    ensures Join([a, b, c], sep) == a + [sep] + b + [sep] + c
  {
    assert [a, b, c][1..] == [b, c];
    assert [b, c][1..] == [c];
    assert Join([b, c], sep) == b + [sep] + c;
    assert Join([a, b, c], sep) == a + [sep] + (b + [sep] + c);
  }

  /** A booking id contains exactly two hyphens. */
  lemma BookingIdHyphens(now: nat, random36: string)
    requires IsRandomBase36(random36)
    ensures multiset(GenerateBookingId(now, random36))['-'] == 2
  {
    var t, r := TimestampPart(now), RandomPart(random36);
    NoHyphenInParts(now, random36);
    assert multiset(t)['-'] == 0 && multiset(r)['-'] == 0;
    assert multiset("BK-")['-'] == 1;
    assert GenerateBookingId(now, random36) == "BK-" + t + "-" + r;
  }

  /** The shape quoted for the generator: clock 108729391 and random "0.x4kp…"
      give "BK-08729391-X4KP". */
  lemma BookingIdExample()
    ensures GenerateBookingId(108729391, "0.x4kpq7") == "BK-08729391-X4KP"
  {
    DecimalExample();
    assert Slice("0.x4kpq7", 2, 6) == "x4kp";
    assert ToUpper("x4kp") == "X4KP";
  }

  lemma DecimalExample()
    ensures DecimalString(108729391) == "108729391"
  {
    assert DecimalString(10) == "10";
    assert DecimalString(108) == "108";
    assert DecimalString(1087) == "1087";
    assert DecimalString(10872) == "10872";
    assert DecimalString(108729) == "108729";
    assert DecimalString(1087293) == "1087293";
    assert DecimalString(10872939) == "10872939";
  }
}
