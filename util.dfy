/**
  `util.encode`, the normalisation applied to every feed (section) name
  before it is used as a key. util.py is not part of this model; its
  behaviour is taken from test/test_util.py: `None`, the empty string and
  blank strings give `None`, anything else is stripped and upper-cased.
 */
module Util {
  import opened Wrappers
  import opened PyStr

  function Encode(s: Option<string>): (r: Option<string>)
    ensures r.None? <==> (s.None? || AllSpace(s.value))
    ensures r.Some? ==> r.value != [] && Stripped(r.value) && NoLower(r.value)
  {
    if s.None? || AllSpace(s.value) then None else Some(Upper(Strip(s.value)))
  }

  /** A name that is already in the form `Encode` gives. */
  predicate Normalised(k: string) {
    k != [] && Stripped(k) && NoLower(k)
  }

  /** Encoding an encoded name changes nothing, so a key can be looked up
      again through `Encode` without drifting. */
  lemma EncodeIdempotent(s: Option<string>)
    ensures Encode(Encode(s)) == Encode(s)
  {
    if Encode(s).Some? {
      var k := Encode(s).value;
      assert !IsSpace(k[0]);
      StrippedIsFixed(k);
    }
  }

  /** The normalised names are exactly the ones `Encode` maps to themselves. */
  lemma NormalisedIsFixedPoint(k: string)
    ensures Normalised(k) <==> Encode(Some(k)) == Some(k)
  {
    if Normalised(k) {
      assert !IsSpace(k[0]);
      StrippedIsFixed(k);
    }
  }

  /** The blank cases of test/test_util.py. */
  lemma EncodeBlankExamples()
    ensures Encode(None) == None && Encode(Some("")) == None && Encode(Some(" ")) == None
  {
  }

  /** The case-folding cases of test/test_util.py. */
  lemma EncodeCaseExamples()
    ensures Encode(Some("test")) == Some("TEST") && Encode(Some("Test")) == Some("TEST")
    ensures Encode(Some(" Test ")) == Some("TEST")
  {
    EncodeVisible("test");
    EncodeVisible("Test");
    assert " Test " == " " + "Test" + " ";
    StripPadded(" ", "Test", " ");
    UpperTest();
  }

  lemma EncodeVisible(s: string)
    requires s != [] && Stripped(s)
    ensures Encode(Some(s)) == Some(Upper(s))
  {
    assert !IsSpace(s[0]);
    StrippedIsFixed(s);
  }

  lemma UpperTest()
    ensures Upper("test") == "TEST" && Upper("Test") == "TEST"
  {
    assert Upper("test")[0] == 'T' && Upper("test")[1] == 'E';
  }

  /** Inner blanks survive: `" Test test "` becomes `"TEST TEST"`. */
  lemma EncodeInnerBlankExample()
    ensures Encode(Some(" Test test ")) == Some("TEST TEST")
  {
    assert " Test test " == " " + "Test test" + " ";
    assert Stripped("Test test");
    EncodePadded(" ", "Test test", " ");
    UpperTestTest();
  }

  lemma UpperTestTest()
    ensures Upper("Test test") == "TEST TEST"
  {
    assert Upper("Test test")[4] == ' ' && Upper("Test test")[5] == 'T';
  }

  lemma EncodePadded(pre: string, s: string, post: string)
    requires AllSpace(pre) && AllSpace(post) && s != [] && Stripped(s)
    ensures Encode(Some(pre + s + post)) == Some(Upper(s))
  {
    StripPadded(pre, s, post);
  }
}
