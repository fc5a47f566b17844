/**
 * The frontend's reading of a validation report: a status for the whole
 * document or for one identifier, with errors taking precedence over
 * warnings and informational results not counting, and the per-severity
 * counts. The backend command's reply is a parameter.
 */
module Validation {
  import opened Wrappers
  import opened Seqs

  datatype Severity = Error | Warning | Info

  /** One validation issue. */
  datatype ValidationResult = ValidationResult(location: string, message: string, severity: Severity, identifier: Option<string>)

  /** The document's report. */
  datatype Report = Report(isValid: bool, errors: seq<ValidationResult>)

  datatype ValidationStatus = OK | HasWarnings | HasErrors

  /** `ValidationReportCounts`. */
  datatype ReportCounts = ReportCounts(errors: nat, warnings: nat)

  /** The number of results of severity `sev`: `results.filter(r => r.severity === sev).length`. */
  function CountSeverity(results: seq<ValidationResult>, sev: Severity): (n: nat)
    ensures n <= |results|
    ensures n > 0 <==> exists i :: 0 <= i < |results| && results[i].severity == sev
  {
    var f := Filter(results, (r: ValidationResult) => r.severity == sev);
    assert (exists i :: 0 <= i < |results| && results[i].severity == sev) ==> |f| > 0 by {
      if exists i :: 0 <= i < |results| && results[i].severity == sev {
        var i :| 0 <= i < |results| && results[i].severity == sev;
        assert results[i] in f;
      }
    }
    assert |f| > 0 ==> exists i :: 0 <= i < |results| && results[i].severity == sev by {
      if |f| > 0 {
        assert f[0] in results;
        var i :| 0 <= i < |results| && results[i] == f[0];
        assert results[i].severity == sev;
      }
    }
    |f|
  }

  /** Every result has exactly one severity, so the three counts add up to the number of results. */
  lemma {:induction false} CountsPartition(results: seq<ValidationResult>)
    ensures CountSeverity(results, Error) + CountSeverity(results, Warning) + CountSeverity(results, Info) == |results|
    decreases |results|
  {
    if results != [] {
      CountsPartition(results[1..]);
    }
  }

  /** The shared precedence: any error, else any warning, else OK. */
  function Classify(results: seq<ValidationResult>): (status: ValidationStatus)
    ensures status == HasErrors <==> exists i :: 0 <= i < |results| && results[i].severity == Error
    ensures status == HasWarnings <==>
      (forall i :: 0 <= i < |results| ==> results[i].severity != Error) &&
      (exists i :: 0 <= i < |results| && results[i].severity == Warning)
    ensures status == OK <==> forall i :: 0 <= i < |results| ==> results[i].severity == Info
  {
    if CountSeverity(results, Error) > 0 then HasErrors
    else if CountSeverity(results, Warning) > 0 then HasWarnings
    else
      assert forall i :: 0 <= i < |results| ==> results[i].severity == Info by {
        forall i | 0 <= i < |results|
          ensures results[i].severity == Info
        {
          assert results[i].severity != Error && results[i].severity != Warning;
        }
      }
      OK
  }

  /**
   * `getValidationStatus()`: a failed command throws "Failed to get
   * validation report: ..."; a report marked valid is OK whatever it lists.
   */
  function GetValidationStatus(response: Result<Report, string>): (r: Result<ValidationStatus, string>)
    ensures response.Err? ==> r == Err("Failed to get validation report: " + response.error)
    ensures response.Ok? && response.value.isValid ==> r == Ok(OK)
    ensures response.Ok? && response.value.errors == [] ==> r == Ok(OK)
  {
    match response
    case Err(e) => Err("Failed to get validation report: " + e)
    case Ok(report) =>
      if report.isValid then Ok(OK)
      else if |report.errors| == 0 then Ok(OK)
      else
        var numErrors := CountSeverity(report.errors, Error);
        var numWarnings := CountSeverity(report.errors, Warning);
        if numErrors > 0 then Ok(HasErrors)
        else if numWarnings > 0 then Ok(HasWarnings)
        else Ok(OK)
  }

  /** For a report not marked valid, the document status is the precedence applied to its results. */
  lemma StatusOfInvalidReport(report: Report)
    requires !report.isValid
    ensures GetValidationStatus(Ok(report)) == Ok(Classify(report.errors))
  {
  }

  /** `getValidationStatusById(id)`, given the results the command returns for `id`. */
  function GetValidationStatusById(results: seq<ValidationResult>): (status: ValidationStatus)
    ensures results == [] ==> status == OK
  {
    if |results| == 0 then OK
    else
      var numErrors := CountSeverity(results, Error);
      var numWarnings := CountSeverity(results, Warning);
      if numErrors > 0 then HasErrors
      else if numWarnings > 0 then HasWarnings
      else OK
  }

  /** The per-identifier status follows the same precedence. */
  lemma StatusByIdIsPrecedence(results: seq<ValidationResult>)
    ensures GetValidationStatusById(results) == Classify(results)
  {
  }

  /** `getReportCounts()`: the error and warning counts of the report; informational results are not counted. */
  function GetReportCounts(response: Result<Report, string>): (r: Result<ReportCounts, string>)
    ensures response.Err? ==> r == Err("Failed to get validation report: " + response.error)
    ensures response.Ok? ==> r == Ok(ReportCounts(CountSeverity(response.value.errors, Error), CountSeverity(response.value.errors, Warning)))
    ensures r.Ok? ==> r.value.errors + r.value.warnings <= |response.value.errors|
  {
    match response
    case Err(e) => Err("Failed to get validation report: " + e)
    case Ok(report) =>
      assert CountSeverity(report.errors, Error) + CountSeverity(report.errors, Warning) <= |report.errors| by {
        CountsPartition(report.errors);
      }
      Ok(ReportCounts(CountSeverity(report.errors, Error), CountSeverity(report.errors, Warning)))
  }

  /** The counts and the status agree: for a report not marked valid, errors give HasErrors, else warnings give HasWarnings. */
  lemma CountsAgreeWithStatus(report: Report)
    requires !report.isValid
    ensures var c := GetReportCounts(Ok(report)).value;
      GetValidationStatus(Ok(report)) == Ok(if c.errors > 0 then HasErrors else if c.warnings > 0 then HasWarnings else OK)
  {
  }
}
