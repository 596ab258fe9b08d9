/**
  The records that travel through the pipeline.
 */
module Mail {
  import opened Text
  import opened Decimal

  /** Why one item of a model reply was refused; `index` is its position in the reply. */
  datatype ItemError =
    | DuplicateKey(index: nat)
    | UnknownLabel(index: nat)
    | ConfidenceOutOfRange(index: nat)
    | InvalidPriority(index: nat)
    | EmptySummary(index: nat)
    | NoKeyPoints(index: nat)
    | EmptyKeyPoint(index: nat, point: nat)

  /** Why a reply as a whole did not parse. */
  datatype ParseError =
    | EmptyResponse
    | InvalidJson
    | NegativeSchemaVersion(version: int)
    | UnsupportedSchemaVersion(version: int)
    | EmptyClassifications
    | InvalidItems(items: seq<ItemError>)

  datatype Stage = ParseStage | RepairStage | UnknownStage

  datatype Failure =
    | ParseFailed(parse: ParseError)
    | RepairUnavailable
    | RepairInvalid(parse: ParseError)
    | NotRepaired
    | Unspecified

  datatype AnalysisError = AnalysisError(key: MessageKey, error: Failure, stage: Stage)

  /** The analysis of one message; `category` is the label the model chose. */
  datatype Classification = Classification(
    key: MessageKey, category: string, confidence: real, reason: string, summary: string,
    keyPoints: seq<string>, actionItems: seq<string>, priority: string, urgency: string,
    analysisError: Option<AnalysisError>)

  /** The classification of a message without a valid analysis. */
  function FailedClassification(key: MessageKey): Classification {
    Classification(key, "Unknown", 0.0, "", "", [], [], "", "", None)
  }

  datatype Message = Message(
    account: string, uid: uint32, subject: string, from: string, date: int, body: string, isRead: bool)
  {
    function Key(): MessageKey { MessageKey(account, uid) }
  }

  function Keys(cs: seq<Classification>): seq<MessageKey> {
    seq(|cs|, i requires 0 <= i < |cs| => cs[i].key)
  }

  function MessageKeys(ms: seq<Message>): seq<MessageKey> {
    seq(|ms|, i requires 0 <= i < |ms| => ms[i].Key())
  }

  ghost predicate Distinct<T>(s: seq<T>) {
    forall i, j :: 0 <= i < j < |s| ==> s[i] != s[j]
  }
}
