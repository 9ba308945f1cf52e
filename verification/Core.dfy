/** What every component shares: optional and fallible results, the refusal
    codes, and octet strings with their lexicographic order. */
module Core {
  datatype Option<+T> = None | Some(value: T)

  datatype Result<+T> = Ok(value: T) | Err(reason: Reason)

  /** The refusal codes of the operations that are modelled. */
  datatype Reason =
    | EncodingMalformed | EncodingTrailingBytes | EncodingUnexpectedToken | EncodingDuplicateKey
    | EncodingInvalidUtf8 | EncodingNumberOutOfRange
    | LimitDepthExceeded | LimitObjectsExceeded | LimitBytesExceeded | LimitFieldsExceeded | LimitFindingsExceeded
    | WireFrameOversize | WireFrameTruncated | WireFrameMagicMismatch | WireProtocolVersionUnsupported
    | WireFrameTypeUnsupported | WireFrameChecksumMismatch
    | FencedStaleEpoch | FencedStaleIncarnation | FencedStaleSequence
    | IntentGenerationRegressed | IntentGenerationConflicting
    | ObservationDuplicateConflicting | ObservationSourcesDisagree | ObservationSourceCannotAssertAbsence
    | ObservationCoveragePartial | ObservationCoverageUnknown | ObservationExpired | ObservationForeignEpoch
    | ObservationClockRegression | NoFreshEvidence | EvidenceRecoveredNotFresh
    | ClassifiedNoIntent | ClassifiedObjectMissing | ClassifiedObjectUnexpected | ClassifiedFieldMissing
    | ClassifiedFieldUnexpected | ClassifiedValueMismatch | ClassifiedFieldNotComparable | ClassifiedNotObservable
    | ClassifiedUnsupportedField | ClassifiedPartialApplication | ClassifiedGenerationMismatch | ClassifiedConverged
    | ComparisonBaselineUnavailable
    | FindingNotFound | FindingResolved | FindingReclassified | FindingRebased | FindingRetired | SuppressionNotFound
    | AcknowledgementRecorded | AuthorityMismatch | NotStarted | Cancelled | WireHandshakeRequired | NoReason

  /** An octet, written as the character with that code. */
  type byte = c: char | c as int < 256
  /** Octet strings: identities, member names, documents. */
  type Text = seq<byte>

  const INT64_MAX: int := 0x7FFF_FFFF_FFFF_FFFF
  const INT64_MIN: int := -0x8000_0000_0000_0000
  const UINT64_MAX: int := 0xFFFF_FFFF_FFFF_FFFF

  /** Lexicographic order of octet strings. */
  predicate Less(a: Text, b: Text)
    decreases |a|
  {
    b != [] && (a == [] || a[0] < b[0] || (a[0] == b[0] && Less(a[1..], b[1..])))
  }

  lemma {:induction false} LessTotal(a: Text, b: Text)
    ensures a == b || Less(a, b) || Less(b, a)
    decreases |a|
  {
    if a != [] && b != [] && a[0] == b[0] {
      LessTotal(a[1..], b[1..]);
      assert a == [a[0]] + a[1..] && b == [b[0]] + b[1..];
    }
  }

  lemma {:induction false} LessStrict(a: Text, b: Text)
    requires Less(a, b)
    ensures a != b && !Less(b, a)
    decreases |a|
  {
    if a != [] && a[0] == b[0] {
      LessStrict(a[1..], b[1..]);
    }
  }

  lemma {:induction false} LessTransitive(a: Text, b: Text, c: Text)
    requires Less(a, b) && Less(b, c)
    ensures Less(a, c)
    decreases |a|
  {
    if a != [] && a[0] == b[0] == c[0] {
      LessTransitive(a[1..], b[1..], c[1..]);
    }
  }
}
