/** What gets stored, and what the merge rules look at. */
module Records {
  import opened Bytes
  import opened Time
  import opened Floats

  datatype Option<+T> = None | Some(value: T)

  const I64_MIN: int := -0x8000_0000_0000_0000
  const I64_MAX: int := 0x7fff_ffff_ffff_ffff

  type I64 = n: int | -0x8000_0000_0000_0000 <= n <= 0x7fff_ffff_ffff_ffff

  datatype Value =
    | Blob(bytes: Key)
    | Counter(n: I64)
    | Set(items: set<Key>)
    | Bool(b: bool)
    | Text(text: string)
    | Number(v: F64)

  datatype SourceRef = SourceRef(system: string, recordId: string)

  datatype TrustClass = VerifiedSystem | Human | ThirdParty | Untrusted

  datatype Observation = Observation(id: string, source: SourceRef, trust: TrustClass, observedAt: MaybeTime,
                                     ingestedAt: nat, payload: Key)

  datatype Method = Direct | Rule | Statistical | LanguageModel | ByHuman | Imported {
    function Rank(): nat {
      match this
      case Direct => 5
      case ByHuman => 4
      case Rule => 3
      case Statistical => 2
      case Imported => 1
      case LanguageModel => 0
    }
  }

  datatype ClaimStatus = Asserted | Superseded | Contradicted | Stale | Invalidated | Expired

  datatype Claim = Claim(id: string, predicateName: string, subject: string, about: Value, valid: Interval,
                         known: Interval, confidence: F64, via: Method, calibration: string,
                         evidence: seq<SourceRef>, status: ClaimStatus, policy: Option<string>, actor: string)
  {
    /** Confidence in millionths, as the saturating cast to an unsigned word leaves it. */
    function Millionths(): nat {
      match Meaning(confidence)
      case NotANumber => 0
      case Infinite(negative) => if negative then 0 else 0xffff_ffff_ffff_ffff
      case Finite(c) =>
        var m := c * 1000000.0;
        if m < 0.0 then 0
        else if m.Floor > 0xffff_ffff_ffff_ffff then 0xffff_ffff_ffff_ffff
        else m.Floor
    }

    /** Trustworthiness of method first, then confidence. */
    predicate Outranks(other: Claim) {
      || via.Rank() > other.via.Rank()
      || (via.Rank() == other.via.Rank() && Millionths() > other.Millionths())
    }
  }

  datatype Record =
    | OfObservation(observation: Observation)
    | OfClaim(claim: Claim)
    | OfValue(value: Value)
}
