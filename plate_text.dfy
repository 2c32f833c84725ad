/**
  Clean-up of the OCR output and the plate-length test (app/cam.py):
  `''.join(e for e in texto if e.isalnum())`, accepted as a plate when at
  least five characters survive.
*/
module PlateText {
  import opened Options

  /** Fewest characters a cleaned text needs to count as a plate. */
  const MinPlateLength: nat := 5

  /** `str.isalnum` on the ASCII range: a letter or a decimal digit. */
  predicate IsAlnum(c: char) {
    ('a' <= c <= 'z') || ('A' <= c <= 'Z') || ('0' <= c <= '9')
  }

  predicate AllAlnum(s: string) {
    forall k :: 0 <= k < |s| ==> IsAlnum(s[k])
  }

  /** The alphanumeric characters of s, in order. */
  function Clean(s: string): (r: string)
    ensures AllAlnum(r)
    ensures |r| <= |s|
    ensures forall c :: c in r ==> c in s
  {
    if s == [] then []
    else (if IsAlnum(s[0]) then [s[0]] else []) + Clean(s[1..])
  }

  /** Cleaning a concatenation cleans each part: together with the one-character
      case this says Clean keeps exactly the alphanumeric characters, in order. */
  lemma {:induction false} CleanConcat(a: string, b: string)
    ensures Clean(a + b) == Clean(a) + Clean(b)
  {
    if a == [] {
      assert a + b == b;
    } else {
      assert (a + b)[0] == a[0];
      assert (a + b)[1..] == a[1..] + b;
      CleanConcat(a[1..], b);
    }
  }

  lemma CleanSingle(c: char)
    ensures Clean([c]) == if IsAlnum(c) then [c] else []
  {
    assert [c][1..] == [];
  }

  /** A text is left unchanged by cleaning exactly when it is all alphanumeric. */
  lemma {:induction false} CleanFixedPoint(s: string)
    ensures Clean(s) == s <==> AllAlnum(s)
  {
    if s != [] {
      CleanFixedPoint(s[1..]);
      if !IsAlnum(s[0]) {
        assert |Clean(s)| <= |s[1..]| < |s|;
      }
    }
  }

  /** Cleaning twice is cleaning once. */
  lemma CleanIdempotent(s: string)
    ensures Clean(Clean(s)) == Clean(s)
  {
    CleanFixedPoint(Clean(s));
  }

  /** Number of alphanumeric characters in s. */
  function AlnumCount(s: string): nat {
    if s == [] then 0 else (if IsAlnum(s[0]) then 1 else 0) + AlnumCount(s[1..])
  }

  lemma {:induction false} CleanLength(s: string)
    ensures |Clean(s)| == AlnumCount(s)
  {
    if s != [] {
      CleanLength(s[1..]);
    }
  }

  /** The plate read from one OCR result: its clean-up when at least
      MinPlateLength characters survive, nothing otherwise. */
  function Recognize(ocr: string): (r: Option<string>)
    ensures r.Some? <==> AlnumCount(ocr) >= MinPlateLength
    ensures r.Some? ==> r.value == Clean(ocr) && AllAlnum(r.value) && |r.value| >= MinPlateLength
  {
    CleanLength(ocr);
    var text := Clean(ocr);
    if |text| >= MinPlateLength then Some(text) else None
  }

  /** A recognized plate, read again, is recognized unchanged. */
  lemma RecognizeStable(ocr: string)
    requires Recognize(ocr).Some?
    ensures Recognize(Recognize(ocr).value) == Recognize(ocr)
  {
    var p := Recognize(ocr).value;
    CleanFixedPoint(p);
    CleanLength(p);
  }
}
