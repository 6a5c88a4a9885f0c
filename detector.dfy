/** The classification of `ImageAdDetector.predict`: a candidate is ordinary content if it
    resembles any normal reference; otherwise it is an ad of the first advertiser, in stored
    order, that has a reference image scoring above that advertiser's threshold. */
module Detector {
  import opened Image
  import Scoring

  datatype Option<T> = None | Some(value: T)

  /** `{ isAd, company }`; company is null (None) on every not-ad path. */
  datatype Prediction = Prediction(isAd: bool, company: Option<string>)

  const NotAd: Prediction := Prediction(false, None)

  /** One entry of `Object.entries(this.adSets)`: an advertiser and its reference canvases. */
  datatype AdSet = AdSet(company: string, images: seq<Canvas>)

  /** The configured `thresholds` object. */
  const DefaultThresholds: map<string, real> := map["normal" := 0.25, "stake" := 0.35, "default" := 0.25]

  /** The fixed threshold of the per-frame video scan. */
  const FrameMatchThreshold: real := 0.25

  /** `thresholds[company] || thresholds.default`: a missing entry and an entry of 0 (falsy)
      both fall back to the default. The result is a configured value, the default for an
      unlisted company, and never a zero entry unless the default itself is 0. */
  function ThresholdFor(thresholds: map<string, real>, company: string): (t: real)
    requires "default" in thresholds
    ensures t in thresholds.Values
    ensures company !in thresholds ==> t == thresholds["default"]
    ensures t == 0.0 ==> thresholds["default"] == 0.0
  {
    if company in thresholds && thresholds[company] != 0.0 then thresholds[company] else thresholds["default"]
  }

  /** The per-company threshold lookup of `predict`, as a function value. */
  function CompanyThresholds(thresholds: map<string, real>): string -> real
    requires "default" in thresholds
  {
    company => ThresholdFor(thresholds, company)
  }

  /** The per-frame video scan compares every advertiser against the same constant. */
  function FrameThreshold(company: string): real {
    FrameMatchThreshold
  }

  /** Some reference scores strictly above the threshold against the candidate. */
  predicate ExceedsAny(score: (Canvas, Canvas) -> real, candidate: Canvas, references: seq<Canvas>, threshold: real) {
    exists i :: 0 <= i < |references| && score(candidate, references[i]) > threshold
  }

  predicate SetMatches(score: (Canvas, Canvas) -> real, candidate: Canvas, adSet: AdSet, threshold: string -> real) {
    ExceedsAny(score, candidate, adSet.images, threshold(adSet.company))
  }

  /** Set j matches and no earlier set does. */
  predicate IsFirstMatch(score: (Canvas, Canvas) -> real, candidate: Canvas, adSets: seq<AdSet>,
                         threshold: string -> real, j: int)
  {
    0 <= j < |adSets| && SetMatches(score, candidate, adSets[j], threshold)
    && forall i :: 0 <= i < j ==> !SetMatches(score, candidate, adSets[i], threshold)
  }

  /** The advertiser scan: the first set, in stored order, with a matching image. */
  function FirstMatch(score: (Canvas, Canvas) -> real, candidate: Canvas, adSets: seq<AdSet>,
                      threshold: string -> real): (r: Option<string>)
  {
    if adSets == [] then None
    else if SetMatches(score, candidate, adSets[0], threshold) then Some(adSets[0].company)
    else FirstMatch(score, candidate, adSets[1..], threshold)
  }

  /** The decision of `predict` for a candidate image. */
  function Classify(score: (Canvas, Canvas) -> real, candidate: Canvas, normals: seq<Canvas>,
                    adSets: seq<AdSet>, thresholds: map<string, real>): (r: Prediction)
    requires "normal" in thresholds && "default" in thresholds
    ensures r.isAd <==> r.company.Some?
  {
    if ExceedsAny(score, candidate, normals, thresholds["normal"]) then NotAd
    else
      match FirstMatch(score, candidate, adSets, CompanyThresholds(thresholds))
      case None => NotAd
      case Some(company) => Prediction(true, Some(company))
  }

  /** The advertiser loops shared by `predict` and the per-frame video scan: nested loops
      with an early return on the first image above its company's threshold. */
  method ScanAdSets(candidate: Canvas, adSets: seq<AdSet>, threshold: string -> real) returns (found: Option<string>)
    ensures found == FirstMatch(Scoring.Score, candidate, adSets, threshold)
  {
    var j := 0;
    while j < |adSets|
      invariant j <= |adSets|
      invariant FirstMatch(Scoring.Score, candidate, adSets, threshold)
             == FirstMatch(Scoring.Score, candidate, adSets[j..], threshold)
    {
      var company, adImages := adSets[j].company, adSets[j].images;
      var k := 0;
      while k < |adImages|
        invariant k <= |adImages|
        invariant !ExceedsAny(Scoring.Score, candidate, adImages[..k], threshold(company))
      {
        var similarity := Scoring.CompareImages(candidate, adImages[k]);
        var companyThreshold := threshold(company);
        if similarity > companyThreshold {
          assert adSets[j..][0] == adSets[j];
          return Some(company);
        }
        assert adImages[..k + 1] == adImages[..k] + [adImages[k]];
        k := k + 1;
      }
      assert adImages[..k] == adImages;
      assert adSets[j..][1..] == adSets[j + 1..];
      j := j + 1;
    }
    return None;
  }

  class ImageAdDetector {
    var adSets: seq<AdSet>
    var normalImages: seq<Canvas>
    var initialized: bool
    /** Milliseconds between two sampled video frames. */
    const videoFrameInterval: nat := 2000
    const thresholds: map<string, real> := DefaultThresholds

    /** A detector with no references loaded yet. */
    constructor ()
      ensures adSets == [] && normalImages == [] && !initialized
    {
      adSets := [];
      normalImages := [];
      initialized := false;
    }

    /** `predict` for a tweet whose first image is `tweetImage`: the normal references
        first, then the advertisers, as `Classify` states. */
    method Predict(tweetImage: Canvas) returns (result: Prediction)
      ensures result == Classify(Scoring.Score, tweetImage, normalImages, adSets, thresholds)
    {
      var i := 0;
      while i < |normalImages|
        invariant i <= |normalImages|
        invariant !ExceedsAny(Scoring.Score, tweetImage, normalImages[..i], thresholds["normal"])
      {
        var similarity := Scoring.CompareImages(tweetImage, normalImages[i]);
        if similarity > thresholds["normal"] {
          return Prediction(false, None);
        }
        assert normalImages[..i + 1] == normalImages[..i] + [normalImages[i]];
        i := i + 1;
      }
      assert normalImages[..i] == normalImages;
      var company := ScanAdSets(tweetImage, adSets, CompanyThresholds(thresholds));
      if company.Some? {
        return Prediction(true, company);
      }
      return Prediction(false, None);
    }

    /** The comparison step of a sampled video frame: the first advertiser with an image
        scoring above 0.25, with no check against the normal references. */
    method CheckFrame(frameImage: Canvas) returns (company: Option<string>)
      ensures company == FirstMatch(Scoring.Score, frameImage, adSets, FrameThreshold)
    {
      company := ScanAdSets(frameImage, adSets, FrameThreshold);
    }
  }

  /** `stake` is held to 0.35; every other advertiser falls back to the default 0.25. */
  lemma DefaultThresholdValues(company: string)
    ensures ThresholdFor(DefaultThresholds, company) == if company == "stake" then 0.35 else 0.25
  {
  }

  /** The scan returns the company of the first matching set, and nothing exactly when no
      set matches. */
  lemma {:induction false} FirstMatchIsFirst(score: (Canvas, Canvas) -> real, candidate: Canvas,
                                             adSets: seq<AdSet>, threshold: string -> real, company: string)
    ensures FirstMatch(score, candidate, adSets, threshold).None?
        <==> forall j :: 0 <= j < |adSets| ==> !SetMatches(score, candidate, adSets[j], threshold)
    ensures (FirstMatch(score, candidate, adSets, threshold) == Some(company))
        <==> (exists j :: IsFirstMatch(score, candidate, adSets, threshold, j) && adSets[j].company == company)
  {
    if adSets != [] {
      var rest := adSets[1..];
      FirstMatchIsFirst(score, candidate, rest, threshold, company);
      assert forall j :: 0 < j < |adSets| ==> adSets[j] == rest[j - 1];
      if SetMatches(score, candidate, adSets[0], threshold) {
        assert IsFirstMatch(score, candidate, adSets, threshold, 0);
        if j :| IsFirstMatch(score, candidate, adSets, threshold, j) && adSets[j].company == company {
          assert j == 0;
        }
      } else {
        if j :| IsFirstMatch(score, candidate, adSets, threshold, j) && adSets[j].company == company {
          assert IsFirstMatch(score, candidate, rest, threshold, j - 1);
        }
        if j :| IsFirstMatch(score, candidate, rest, threshold, j) && rest[j].company == company {
          assert IsFirstMatch(score, candidate, adSets, threshold, j + 1);
        }
      }
    }
  }

  /** A candidate resembling any normal reference is never an ad, whatever the ad sets hold. */
  lemma NormalMatchWins(score: (Canvas, Canvas) -> real, candidate: Canvas, normals: seq<Canvas>,
                        adSets: seq<AdSet>, thresholds: map<string, real>)
    requires "normal" in thresholds && "default" in thresholds
    requires ExceedsAny(score, candidate, normals, thresholds["normal"])
    ensures Classify(score, candidate, normals, adSets, thresholds) == NotAd
  {
  }

  /** The result is an ad of `company` exactly when no normal reference matches and the first
      matching advertiser, in stored order, is `company`. */
  lemma ClassifyIsAd(score: (Canvas, Canvas) -> real, candidate: Canvas, normals: seq<Canvas>,
                     adSets: seq<AdSet>, thresholds: map<string, real>, company: string)
    requires "normal" in thresholds && "default" in thresholds
    ensures Classify(score, candidate, normals, adSets, thresholds) == Prediction(true, Some(company))
        <==> !ExceedsAny(score, candidate, normals, thresholds["normal"])
             && exists j :: IsFirstMatch(score, candidate, adSets, CompanyThresholds(thresholds), j)
                            && adSets[j].company == company
  {
    FirstMatchIsFirst(score, candidate, adSets, CompanyThresholds(thresholds), company);
  }

  /** Without references every candidate is ordinary content. */
  lemma EmptyReferencesAreNotAd(score: (Canvas, Canvas) -> real, candidate: Canvas, thresholds: map<string, real>)
    requires "normal" in thresholds && "default" in thresholds
    ensures Classify(score, candidate, [], [], thresholds) == NotAd
  {
  }

  /** A candidate that is itself one of the normal references is not an ad, even when it is
      also an ad reference: it scores at least 0.8 against itself, above 0.25. */
  lemma CopyOfNormalIsNotAd(candidate: Canvas, normals: seq<Canvas>, adSets: seq<AdSet>)
    requires candidate in normals
    ensures Classify(Scoring.Score, candidate, normals, adSets, DefaultThresholds) == NotAd
  {
    Scoring.ScoreSelf(candidate);
    var i :| 0 <= i < |normals| && normals[i] == candidate;
    assert Scoring.Score(candidate, normals[i]) > DefaultThresholds["normal"];
  }
}
