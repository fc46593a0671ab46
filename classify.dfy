/** `getRequestFunction`: the label under which a request is counted, from its status
    code and whether its path is an API path. */
module Classify {
  import Strings

  // The net/http status codes the ladder compares against.
  const StatusOK := 200
  const StatusAlreadyReported := 208
  const StatusMovedPermanently := 301
  const StatusPermanentRedirect := 308
  const StatusBadRequest := 400
  const StatusUnauthorized := 401
  const StatusForbidden := 403
  const StatusNotFound := 404
  const StatusMethodNotAllowed := 405
  const StatusUnavailableForLegalReasons := 451
  const StatusInternalServerError := 500
  const StatusNetworkAuthenticationRequired := 511

  /** The nine labels a status code can get, before the API prefix. */
  const BaseLabels: seq<string> := [
    "redirect", "not_found", "request_success", "request_unauthorized",
    "request_forbidden", "request_method_not_allowed", "request_client_error",
    "request_server_error", "request_misc"]

  const ApiPrefix := "api_"

  /** The status part of the label: the if/else ladder, tried top to bottom. */
  function BaseFunction(statusCode: int): (name: string)
    ensures name in BaseLabels
  {
    if StatusMovedPermanently <= statusCode <= StatusPermanentRedirect then "redirect"
    else if statusCode == StatusNotFound then "not_found"
    else if StatusOK <= statusCode <= StatusAlreadyReported then "request_success"
    else if statusCode == StatusUnauthorized then "request_unauthorized"
    else if statusCode == StatusForbidden then "request_forbidden"
    else if statusCode == StatusMethodNotAllowed then "request_method_not_allowed"
    else if StatusBadRequest <= statusCode <= StatusUnavailableForLegalReasons then "request_client_error"
    else if StatusInternalServerError <= statusCode <= StatusNetworkAuthenticationRequired then "request_server_error"
    else "request_misc"
  }

  /** Where in `BaseLabels` the ladder's answer stands. */
  function BaseIndex(statusCode: int): (k: nat)
    ensures k < |BaseLabels| && BaseLabels[k] == BaseFunction(statusCode)
  {
    if StatusMovedPermanently <= statusCode <= StatusPermanentRedirect then 0
    else if statusCode == StatusNotFound then 1
    else if StatusOK <= statusCode <= StatusAlreadyReported then 2
    else if statusCode == StatusUnauthorized then 3
    else if statusCode == StatusForbidden then 4
    else if statusCode == StatusMethodNotAllowed then 5
    else if StatusBadRequest <= statusCode <= StatusUnavailableForLegalReasons then 6
    else if StatusInternalServerError <= statusCode <= StatusNetworkAuthenticationRequired then 7
    else 8
  }

  /** A request is an API request when "api/" occurs anywhere in its path. */
  function IsApiRequest(path: string): (b: bool)
    ensures b <==> exists i :: Strings.OccursAt(path, "api/", i)
  {
    Strings.Contains(path, "api/")
  }

  /** `getRequestFunction(path, statusCode)`: the label and the API flag. */
  function GetRequestFunction(path: string, statusCode: int): (r: (string, bool))
    ensures r.1 <==> exists i :: Strings.OccursAt(path, "api/", i)
  {
    var isApiRequest := IsApiRequest(path);
    var requestFunction := BaseFunction(statusCode);
    if isApiRequest then (ApiPrefix + requestFunction, isApiRequest) else (requestFunction, isApiRequest)
  }

  /** Every label `getRequestFunction` can produce: the nine base labels, with and without
      the API prefix. */
  function AllLabels(): set<string>
  {
    (set k | 0 <= k < |BaseLabels| :: BaseLabels[k]) +
    (set k | 0 <= k < |BaseLabels| :: ApiPrefix + BaseLabels[k])
  }

  /** The first band: 301 to 308 (304 included, 300 not) is a redirect, then 404, then
      200 to 208 is a success. */
  lemma FirstBand(statusCode: int)
    ensures 301 <= statusCode <= 308 ==> BaseFunction(statusCode) == "redirect"
    ensures statusCode == 404 ==> BaseFunction(statusCode) == "not_found"
    ensures 200 <= statusCode <= 208 ==> BaseFunction(statusCode) == "request_success"
    ensures BaseFunction(304) == "redirect" && BaseFunction(300) != "redirect"
  {
  }

  /** The second band: 401, 403 and 405 have labels of their own, the rest of 400 to 451
      is a client error, 500 to 511 a server error. */
  lemma SecondBand(statusCode: int)
    ensures statusCode == 401 ==> BaseFunction(statusCode) == "request_unauthorized"
    ensures statusCode == 403 ==> BaseFunction(statusCode) == "request_forbidden"
    ensures statusCode == 405 ==> BaseFunction(statusCode) == "request_method_not_allowed"
    ensures BaseFunction(statusCode) == "request_client_error" <==>
      400 <= statusCode <= 451 && statusCode != 401 && statusCode != 403 &&
      statusCode != 404 && statusCode != 405
    ensures BaseFunction(statusCode) == "request_server_error" <==> 500 <= statusCode <= 511
  {
  }

  /** Everything the ladder does not name is miscellaneous: 1xx (and below), 209 to 300,
      309 to 399, 452 to 499 and 512 upwards. */
  lemma MiscBand(statusCode: int)
    ensures BaseFunction(statusCode) == "request_misc" <==>
      statusCode < 200 || 209 <= statusCode <= 300 || 309 <= statusCode <= 399 ||
      452 <= statusCode <= 499 || statusCode >= 512
  {
    BaseLabelsDistinct();
    var k := BaseIndex(statusCode);
    if k < 8 {
      assert BaseLabels[k] != BaseLabels[8];
    }
  }

  lemma BaseLabelsDistinct()
    ensures forall i, j :: 0 <= i < j < |BaseLabels| ==> BaseLabels[i] != BaseLabels[j]
    ensures forall i :: 0 <= i < |BaseLabels| ==> |BaseLabels[i]| < 4 || BaseLabels[i][..4] != ApiPrefix
  {
    forall i, j | 0 <= i < j < |BaseLabels| ensures BaseLabels[i] != BaseLabels[j] {
      var a, b := BaseLabels[i], BaseLabels[j];
      if |a| == |b| {
        assert a[0] != b[0] || a[8] != b[8];
      }
    }
    forall i | 0 <= i < |BaseLabels| ensures |BaseLabels[i]| < 4 || BaseLabels[i][..4] != ApiPrefix {
      assert BaseLabels[i][0] != 'a';
    }
  }

  /** The label is the API prefix followed by the base label exactly when the path is an
      API path; otherwise it is the base label itself. Either way it is one of the 18. */
  lemma LabelShape(path: string, statusCode: int)
    ensures var r := GetRequestFunction(path, statusCode); var lbl := r.0; var isApi := r.1;
      (isApi ==> lbl == ApiPrefix + BaseFunction(statusCode)) &&
      (!isApi ==> lbl == BaseFunction(statusCode)) &&
      lbl in AllLabels()
  {
    var b := BaseFunction(statusCode);
    var k := BaseIndex(statusCode);
    assert ApiPrefix + BaseLabels[k] in AllLabels();
  }

  /** The label depends on the path only through the "api/" test: two paths that agree on
      it get the same label for every status code. */
  lemma LabelDependsOnlyOnApiTest(p1: string, p2: string, statusCode: int)
    requires Strings.Contains(p1, "api/") == Strings.Contains(p2, "api/")
    ensures GetRequestFunction(p1, statusCode) == GetRequestFunction(p2, statusCode)
  {
  }

  /** There are exactly 18 labels. */
  lemma {:induction false} LabelCount()
    ensures |AllLabels()| == 18
  {
    BaseLabelsDistinct();
    var plain := set k | 0 <= k < |BaseLabels| :: BaseLabels[k];
    var api := set k | 0 <= k < |BaseLabels| :: ApiPrefix + BaseLabels[k];
    InjectiveImage(BaseLabels, "");
    InjectiveImage(BaseLabels, ApiPrefix);
    assert plain == set k | 0 <= k < |BaseLabels| :: "" + BaseLabels[k] by {
      forall k | 0 <= k < |BaseLabels| ensures "" + BaseLabels[k] == BaseLabels[k] { }
    }
    forall x | x in api ensures x !in plain {
      var k :| 0 <= k < |BaseLabels| && x == ApiPrefix + BaseLabels[k];
      assert x[..4] == ApiPrefix;
    }
    assert plain !! api;
  }

  /** A distinct list of names, each prefixed with `p`, has as many names in its image. */
  lemma {:induction false} InjectiveImage(xs: seq<string>, p: string)
    requires forall i, j :: 0 <= i < j < |xs| ==> xs[i] != xs[j]
    ensures |set k | 0 <= k < |xs| :: p + xs[k]| == |xs|
  {
    if xs != [] {
      var init := xs[..|xs| - 1];
      InjectiveImage(init, p);
      var s0 := set k | 0 <= k < |init| :: p + init[k];
      var s := set k | 0 <= k < |xs| :: p + xs[k];
      var last := p + xs[|xs| - 1];
      assert s == s0 + {last} by {
        forall x | x in s ensures x in s0 + {last} {
          var k :| 0 <= k < |xs| && x == p + xs[k];
          if k < |xs| - 1 { assert x == p + init[k]; }
        }
      }
      forall x | x in s0 ensures x != last {
        var k :| 0 <= k < |init| && x == p + init[k];
        assert (p + init[k])[|p|..] == init[k];
        assert last[|p|..] == xs[|xs| - 1];
      }
    }
  }

  /** Every one of the 18 labels is produced by some request. */
  lemma EveryLabelOccurs(lbl: string)
    requires lbl in AllLabels()
    ensures exists path, statusCode :: GetRequestFunction(path, statusCode).0 == lbl
  {
    assert Strings.OccursAt("api/", "api/", 0);
    assert !Strings.Contains("", "api/");
    var k :| 0 <= k < |BaseLabels| && (lbl == BaseLabels[k] || lbl == ApiPrefix + BaseLabels[k]);
    var code := WitnessCode(k);
    if lbl == BaseLabels[k] {
      assert GetRequestFunction("", code).0 == lbl;
    } else {
      assert GetRequestFunction("api/", code).0 == lbl;
    }
  }

  /** A status code that the ladder sends to the `k`th base label. */
  function WitnessCode(k: nat): (code: int)
    requires k < |BaseLabels|
    ensures BaseFunction(code) == BaseLabels[k]
  {
    [301, 404, 200, 401, 403, 405, 400, 500, 100][k]
  }
}
