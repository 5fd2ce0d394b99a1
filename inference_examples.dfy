/**
 * The inference functions on concrete hosts. The region expression expects
 * `<region>.<service>.amazonaws.com`, the form of the search-domain endpoints
 * (`<domain>.us-east-1.es.amazonaws.com`); on a host of the form
 * `<service>.<region>.amazonaws.com` it finds no match, so the script stops
 * unless a region option is given.
 */
module InferenceExamples {
  import opened Wrappers
  import opened Text
  import opened Inference

  lemma SearchDomainHost(u: string)
    requires u == "us-east-1.es.amazonaws.com"
    ensures InferRegion(u) == Some("us-east-1")
    ensures InferService(u) == Some("es")
  {
    SearchDomainRegion(u);
    SearchDomainService(u);
  }

  lemma SearchDomainRegion(u: string)
    requires u == "us-east-1.es.amazonaws.com"
    ensures InferRegion(u) == Some("us-east-1")
  {
    SearchDomainMatches(u);
    RegionMatchFromStart(u, 9, 12);
    assert u[..9] == "us-east-1";
  }

  lemma SearchDomainService(u: string)
    requires u == "us-east-1.es.amazonaws.com"
    ensures InferService(u) == Some("es")
  {
    SearchDomainMatches(u);
    var r := InferService(u);
    var s: nat, f: nat :| ServiceMatch(u, s, f) && r.value == u[s..f] && NoServiceMatchIn(u, 0, s);
    SearchDomainServiceMatch(u, s, f);
    assert s == 10;
    assert u[10..12] == "es";
  }

  lemma SearchDomainMatches(u: string)
    requires u == "us-east-1.es.amazonaws.com"
    ensures RegionMatch(u, 0, 9, 12) && ServiceMatch(u, 10, 12)
  {
    assert u[12..] == SUFFIX;
    SuffixLiteral(u, 12);
    assert LabelRun(u, 0, 9) && u[9] == '.' && WordRun(u, 10, 12);
  }

  lemma SearchDomainDots(u: string)
    requires u == "us-east-1.es.amazonaws.com"
    ensures forall i :: 0 <= i < |u| && u[i] == '.' ==> i == 9 || i == 12 || i == 22
  {
  }

  lemma SearchDomainNoSuffixAt9(u: string)
    requires u == "us-east-1.es.amazonaws.com"
    ensures !SuffixAt(u, 9)
  {
    assert Lower(u[9..23])[1] == LowerChar(u[10]) == 'e';
  }

  /** The only service match on the search-domain host is the word `es`. */
  lemma SearchDomainServiceMatch(u: string, s: nat, f: nat)
    requires u == "us-east-1.es.amazonaws.com"
    requires ServiceMatch(u, s, f)
    ensures 10 <= s && f == 12
  {
    SearchDomainDots(u);
    SearchDomainNoSuffixAt9(u);
    SuffixStartsWithDot(u, f);
    assert f == 12;
    assert u[9] == '.' && !IsWordChar(u[9]);
  }

  lemma GlobalServiceHost(u: string)
    requires u == "dynamodb.amazonaws.com"
    ensures InferService(u) == Some("dynamodb")
  {
    SuffixLiteral(u, 8);
    assert WordRun(u, 0, 8);
    ServiceMatchFromStart(u, 8);
    assert u[..8] == "dynamodb";
  }

  lemma RegionalServiceDots(u: string)
    requires u == "dynamodb.us-east-1.amazonaws.com"
    ensures forall i :: 0 <= i < |u| && u[i] == '.' ==> i == 8 || i == 18 || i == 28
  {
  }

  lemma RegionalServiceNoSuffixAt8(u: string)
    requires u == "dynamodb.us-east-1.amazonaws.com"
    ensures !SuffixAt(u, 8)
  {
    assert Lower(u[8..22])[1] == LowerChar(u[9]) == 'u';
  }

  lemma RegionalServiceNoMatchAt(u: string, s: nat, e: nat, f: nat)
    requires u == "dynamodb.us-east-1.amazonaws.com"
    ensures !RegionMatch(u, s, e, f)
  {
    RegionalServiceDots(u);
    RegionalServiceNoSuffixAt8(u);
    if SuffixAt(u, f) {
      SuffixStartsWithDot(u, f);
      assert f == 18;
      assert u[11] == '-' && !IsWordChar(u[11]);
    }
  }

  /** `<service>.<region>.amazonaws.com` has no region match. */
  lemma RegionalServiceHost(u: string)
    requires u == "dynamodb.us-east-1.amazonaws.com"
    ensures InferRegion(u).None?
  {
    forall s: nat, e: nat, f: nat ensures !RegionMatch(u, s, e, f) {
      RegionalServiceNoMatchAt(u, s, e, f);
    }
  }
}
