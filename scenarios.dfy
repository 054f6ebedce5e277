/** Worked example: the message "Your WhatsApp code is 482913", classified with the
    intended code pattern and with the pattern as the source writes it. */
module Scenarios {
  import opened Wrappers
  import opened Text
  import opened Classifier

  const Prefix: string := "Your WhatsApp code is "
  const Sample: string := Prefix + "482913"

  lemma PrefixHasNoDigitOrBackslash()
    ensures forall j :: 0 <= j < |Prefix| ==> !IsDigit(Prefix[j]) && Prefix[j] != '\\'
  {
  }

  /** The code of the sample is its six-digit run. */
  lemma {:induction false} SampleCode()
    ensures CodeOf(Sample) == "482913"
  {
    PrefixHasNoDigitOrBackslash();
    assert Sample[22..28] == "482913";
    forall j: nat, k: nat | j < 22 ensures !CodeMatchAt(Sample, j, k) {
      assert Sample[j] == Prefix[j];
      assert 0 < k && j + k <= |Sample| ==> Sample[j..j + k][0] == Sample[j];
    }
    CodeIsLeftmostMatch(Sample, 22, 6);
  }

  /** The sample is classified as a WhatsApp message. */
  lemma {:induction false} SampleService()
    ensures FirstService(ServiceKeywords, Lower(Sample)) == "WhatsApp"
  {
    var lower := Lower(Sample);
    assert Sample[5..13] == "WhatsApp";
    LowerSlice(Sample, 5, 13);
    assert Lower("WhatsApp") == "whatsapp";
    assert lower[5..13] == "whatsapp";
    assert "whatsapp" <= lower[5..];
    assert IsSubstring(ServiceKeywords[0].1[0], lower);
    FirstMatchWins(ServiceKeywords, lower, 0);
  }

  /** The whole record of the sample, for a card of the group "Pakistan 92". */
  lemma {:induction false} SampleRecord(hash: string -> int)
    ensures var r := Classify("Pakistan 92", "923001234567", Sample, hash);
            r.Some? && r.value.country == "Pakistan" && r.value.flag == CountryFlags["Pakistan"] &&
            r.value.service == "WhatsApp" && r.value.code == "482913" &&
            r.value.number == "923001234567" && r.value.fullSms == Sample
  {
    SampleCode();
    SampleService();
    SampleCountry();
    var r := Classify("Pakistan 92", "923001234567", Sample, hash);
    assert r == Some(Message(MessageId("923001234567", Sample, hash), "923001234567", "Pakistan",
                             FlagOf("Pakistan"), "WhatsApp", "482913", Sample));
  }

  /** The group "Pakistan 92" belongs to the country "Pakistan". */
  lemma SampleCountry()
    ensures CountryOf("Pakistan 92") == Some("Pakistan")
  {
    assert SplitsAs("Pakistan 92", "", "Pakistan", " 92");
    CountryOfSplits("Pakistan 92", "", "Pakistan", " 92");
  }

  /** With the pattern exactly as written, the same text yields no code. */
  lemma {:induction false} SampleCodeAsWritten()
    ensures CodeAsWritten(Sample) == NoCode
  {
    PrefixHasNoDigitOrBackslash();
    forall j | 0 <= j < |Sample| ensures Sample[j] != '\\' {
      if j < |Prefix| {
        assert Sample[j] == Prefix[j];
      } else {
        assert Sample[j] == "482913"[j - |Prefix|];
      }
    }
    AsWrittenNeedsBackslash(Sample);
  }
}
