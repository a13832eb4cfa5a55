/** The analyzer's result as the overlay reads it, and the per-severity
    styling shared by the caption and the dashboard. */
module Feedback {
  import opened Common

  /** A pair's `severity` field. `Missing` stands for an absent field and for
      the empty string, which JavaScript treats alike (both are falsy). */
  datatype Severity = Critical | High | Medium | Low | Missing

  /** One entry of `analysis.feedback_pairs`. A missing `timestamp` is the
      empty string; a missing `confidence` is `None`. */
  datatype FeedbackPair = FeedbackPair(
    bodyPart: string,
    issue: string,
    correction: string,
    severity: Severity,
    confidence: Option<real>,
    timestamp: string)

  /** The parts of the analysis object the overlay uses. A missing
      `feedback_pairs` list is the empty sequence. */
  datatype Analysis = Analysis(formScore: real, confidence: real, pairs: seq<FeedbackPair>)

  const Grey: string := "#6b7280"

  /** `getSeverityColor`: a colour per known severity, grey otherwise. */
  function SeverityColor(s: Severity): (c: string)
    ensures c == Grey <==> s == Missing
  {
    match s
    case Critical => "#dc2626"
    case High => "#ea580c"
    case Medium => "#f59e0b"
    case Low => "#22c55e"
    case Missing => Grey
  }

  /** The `severity` string as the analyzer sends it; empty when missing. */
  function SeverityField(s: Severity): string {
    match s
    case Critical => "critical"
    case High => "high"
    case Medium => "medium"
    case Low => "low"
    case Missing => ""
  }

  /** `toUpperCase` on ASCII letters. */
  function UpperAscii(t: string): (u: string)
    ensures |u| == |t|
    ensures forall i :: 0 <= i < |t| ==>
              u[i] == if 'a' <= t[i] <= 'z' then (t[i] as int - 32) as char else t[i]
  {
    if t == [] then []
    else [if 'a' <= t[0] <= 'z' then (t[0] as int - 32) as char else t[0]] + UpperAscii(t[1..])
  }

  /** The upper-cased form of `t` is `u` when they agree letter by letter. */
  lemma UpperAsciiIs(t: string, u: string)
    requires |u| == |t|
    requires forall i :: 0 <= i < |t| ==>
               u[i] == if 'a' <= t[i] <= 'z' then (t[i] as int - 32) as char else t[i]
    ensures UpperAscii(t) == u
  {
  }

  /** The word a severity's badge is made from, upper-cased. */
  lemma BadgeWordUpper(s: Severity)
    ensures UpperAscii(if s == Missing then "medium" else SeverityField(s)) ==
              match s
              case Critical => "CRITICAL"
              case High => "HIGH"
              case Low => "LOW"
              case _ => "MEDIUM"
  {
    match s
    case Critical => UpperAsciiIs("critical", "CRITICAL");
    case High => UpperAsciiIs("high", "HIGH");
    case Low => UpperAsciiIs("low", "LOW");
    case Medium => UpperAsciiIs("medium", "MEDIUM");
    case Missing => UpperAsciiIs("medium", "MEDIUM");
  }

  /** The text of a dashboard item's severity badge: the upper-cased
      severity, `medium` when there is none. */
  function SeverityBadgeText(s: Severity): (t: string)
    ensures t == match s
                 case Critical => "CRITICAL"
                 case High => "HIGH"
                 case Low => "LOW"
                 case _ => "MEDIUM"
  {
    BadgeWordUpper(s);
    UpperAscii(if s == Missing then "medium" else SeverityField(s))
  }

  /** Distinct severities get distinct colours. */
  lemma SeverityColorInjective(a: Severity, b: Severity)
    ensures SeverityColor(a) == SeverityColor(b) <==> a == b
  {
  }

  /** A pair without a severity is labelled like a medium one but coloured
      unlike any known severity. */
  lemma MissingSeverityLooksMedium()
    ensures SeverityBadgeText(Missing) == SeverityBadgeText(Medium)
    ensures SeverityColor(Missing) != SeverityColor(Medium)
  {
  }
}
