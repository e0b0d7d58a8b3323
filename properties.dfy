/** The facade's read-only properties: which cache each one reads and how it
    derives its value from that cache's payload. */
module Properties {
  import opened Errors
  import opened Json
  import opened Fields
  import opened Cache

  /** The getters of each cache, in the order the facade declares them. */
  datatype StatusField = Status | Gap | BlockchainHeight | Epoch | Tip | MinerHeight

  datatype MinerField =
    | OtaVersion | Region | FrequencyPlan | Animal | Name | Pubkey | State | MinerStatus
    | MinerAlert | MinerDesc | Names | Image | Created | P2pStatus | PortsDesc | Ports
    | PrivateIp | PublicIp | Peerbook | Timestamp | ErrorField

  datatype TempField = Temp0 | Temp1 | HighestTemp

  datatype SpeedField = DownloadSpeed | UploadSpeed | Latency

  datatype DigField = DigName | DigMessage | DigDns | DigRecords

  /** A property of the facade, tagged with the cache its getter reads. */
  datatype Property =
    | StatusProp(status: StatusField)
    | MinerProp(miner: MinerField)
    | TempProp(temp: TempField)
    | SpeedProp(speed: SpeedField)
    | DigProp(dig: DigField)

  /** The one cache a property's getter guards and reads. */
  function EndpointOf(prop: Property): Endpoint {
    match prop
    case StatusProp(_) => StatusEp
    case MinerProp(_) => MinerEp
    case TempProp(_) => TempEp
    case SpeedProp(_) => SpeedEp
    case DigProp(_) => DigEp
  }

  /** The temperature getters: `int(self.temp_data.get(key))`. */
  function Reading(p: Payload, key: string): Result<int> {
    IntOf(Get(p, key))
  }

  function StatusValue(f: StatusField, p: Payload): Result<Value> {
    match f
    case Status => Ok(Get(p, "status"))
    case Gap => Coerce(Get(p, "gap"))
    case BlockchainHeight => Coerce(Get(p, "blockchain_height"))
    case Epoch => Coerce(Get(p, "epoch"))
    case Tip => Ok(Get(p, "tip"))
    case MinerHeight => Coerce(Get(p, "miner_height"))
  }

  function MinerValue(f: MinerField, p: Payload): Result<Value> {
    match f
    case OtaVersion => Ok(Get(p, "ota_version"))
    case Region => Ok(Get(p, "region"))
    case FrequencyPlan => Ok(Get(p, "frequency_plan"))
    case Animal => Ok(Get(p, "animal"))
    case Name => HumanNameOf(Get(p, "animal"))
    case Pubkey => Ok(Get(p, "pubkey"))
    case State => MinerLookup(p, "State")
    case MinerStatus => MinerLookup(p, "Status")
    case MinerAlert => Ok(GetOr(p, "miner_alert", Object(map[])))
    case MinerDesc => Ok(GetOr(p, "miner_desc", Object(map[])))
    case Names => MinerLookup(p, "Names")
    case Image => MinerLookup(p, "Image")
    case Created => MinerLookup(p, "Created")
    case P2pStatus =>
      var text :- JoinLines(Get(p, "p2p_status"));
      Ok(Str(text))
    case PortsDesc => Ok(Get(p, "ports_desc"))
    case Ports => Ok(GetOr(p, "ports", Object(map[])))
    case PrivateIp => Ok(Get(p, "private_ip"))
    case PublicIp => Ok(Get(p, "public_ip"))
    case Peerbook =>
      var text :- JoinLines(GetOr(p, "peerbook", List([])));
      Ok(Str(text))
    case Timestamp => Ok(Get(p, "timestamp"))
    case ErrorField => Ok(ErrorOrNone(Get(p, "error")))
  }

  function TempValue(f: TempField, p: Payload): Result<Value> {
    match f
    case Temp0 =>
      var t :- Reading(p, "temp0");
      Ok(Int(t))
    case Temp1 =>
      var t :- Reading(p, "temp1");
      Ok(Int(t))
    case HighestTemp =>
      var t0 :- Reading(p, "temp0");
      var t1 :- Reading(p, "temp1");
      Ok(Int(Highest(t0, t1)))
  }

  function SpeedValue(f: SpeedField, p: Payload): Result<Value> {
    match f
    case DownloadSpeed => Ok(Get(p, "DownloadSpeed"))
    case UploadSpeed => Ok(Get(p, "UploadSpeed"))
    case Latency => Ok(Get(p, "Latency"))
  }

  function DigValue(f: DigField, p: Payload): Result<Value> {
    match f
    case DigName => Ok(Get(p, "name"))
    case DigMessage => Ok(Get(p, "message"))
    case DigDns => Ok(Get(p, "DNS"))
    case DigRecords => Ok(GetOr(p, "records", List([])))
  }

  /** What a property's getter returns once its cache holds payload p. */
  function Derive(prop: Property, p: Payload): Result<Value> {
    match prop
    case StatusProp(f) => StatusValue(f, p)
    case MinerProp(f) => MinerValue(f, p)
    case TempProp(f) => TempValue(f, p)
    case SpeedProp(f) => SpeedValue(f, p)
    case DigProp(f) => DigValue(f, p)
  }

  /** The four status counters and the status fields they read. */
  predicate IsCounter(f: StatusField) {
    f == Gap || f == BlockchainHeight || f == Epoch || f == MinerHeight
  }

  function CounterKey(f: StatusField): string
    requires IsCounter(f)
  {
    match f
    case Gap => "gap"
    case BlockchainHeight => "blockchain_height"
    case Epoch => "epoch"
    case MinerHeight => "miner_height"
  }

  /** The counters turn the text of any integer into that integer, pass
      other text through unchanged and fail on an absent field, which has no
      `lstrip`. */
  lemma CounterValues(f: StatusField, p: Payload)
    requires IsCounter(f)
    ensures var key := CounterKey(f);
      && (forall n :: Get(p, key) == Str(IntText(n)) ==> StatusValue(f, p) == Ok(Int(n)))
      && (key !in p ==> StatusValue(f, p) == Err(AttributeError))
      && ((Get(p, key).Str? && !Text.IsDigits(Text.LStrip(Get(p, key).s, '-')))
          ==> StatusValue(f, p) == Ok(Get(p, key)))
  {
    var v := Get(p, CounterKey(f));
    assert StatusValue(f, p) == Coerce(v) by {
      match f
      case Gap =>
      case BlockchainHeight =>
      case Epoch =>
      case MinerHeight =>
    }
    forall n | v == Str(IntText(n))
      ensures Coerce(v) == Ok(Int(n))
    {
      CoerceIntText(n);
    }
  }

  /** The default-safe getters: an absent field yields an empty map, an empty
      list, empty text or `None` instead of a failure. */
  lemma AbsentFieldDefaults(p: Payload)
    ensures "ports" !in p ==> MinerValue(Ports, p) == Ok(Object(map[]))
    ensures "miner_alert" !in p ==> MinerValue(MinerAlert, p) == Ok(Object(map[]))
    ensures "miner_desc" !in p ==> MinerValue(MinerDesc, p) == Ok(Object(map[]))
    ensures "records" !in p ==> DigValue(DigRecords, p) == Ok(List([]))
    ensures "peerbook" !in p ==> MinerValue(Peerbook, p) == Ok(Str(""))
    ensures "error" !in p ==> MinerValue(ErrorField, p) == Ok(Null)
  {
  }

  /** The nested "miner" getters yield `None` when the sub-map is absent. */
  lemma AbsentMinerMap(p: Payload)
    ensures "miner" !in p ==>
      && MinerValue(State, p) == Ok(Null) && MinerValue(MinerStatus, p) == Ok(Null)
      && MinerValue(Names, p) == Ok(Null) && MinerValue(Image, p) == Ok(Null)
      && MinerValue(Created, p) == Ok(Null)
  {
  }

  /** `p2p_status` and the temperatures have no default: an absent field is
      a failure. */
  lemma AbsentFieldFailures(p: Payload)
    ensures "p2p_status" !in p ==> MinerValue(P2pStatus, p) == Err(TypeError)
    ensures "temp0" !in p ==> TempValue(Temp0, p) == Err(TypeError) && TempValue(HighestTemp, p) == Err(TypeError)
    ensures "temp1" !in p ==> TempValue(Temp1, p) == Err(TypeError)
  {
  }

  /** `highest_temp` succeeds exactly when both sensors read, and is then the
      larger reading, the second sensor's on a tie. */
  lemma HighestTempValue(p: Payload)
    ensures TempValue(HighestTemp, p).Ok? <==> TempValue(Temp0, p).Ok? && TempValue(Temp1, p).Ok?
    ensures TempValue(HighestTemp, p).Ok? ==>
      var t0, t1, h := TempValue(Temp0, p).value.i, TempValue(Temp1, p).value.i, TempValue(HighestTemp, p).value;
      && h.Int? && h.i >= t0 && h.i >= t1 && (h.i == t0 || h.i == t1)
      && (t0 <= t1 ==> h == TempValue(Temp1, p).value)
  {
  }

  /** `name` of an animal identifier: same length, a space for every hyphen,
      each word capitalised; an absent identifier fails. */
  lemma NameValue(p: Payload)
    ensures MinerValue(Name, p).Ok? <==> Get(p, "animal").Str?
    ensures Get(p, "animal").Str? ==>
      var s, n := Get(p, "animal").s, MinerValue(Name, p).value;
      && n.Str? && IsTitleOf(n.s, s)
      && Text.Count(n.s, ' ') == Text.Count(s, '-') + Text.Count(s, ' ')
  {
    if Get(p, "animal").Str? {
      HumanNameChars(Get(p, "animal").s);
      HumanNameSpaces(Get(p, "animal").s);
    }
  }

  /** `peerbook` of a list of newline-free entries is text from which the
      entries come back by splitting on newlines. */
  lemma PeerbookValue(p: Payload, entries: seq<string>)
    requires entries != []
    requires forall i :: 0 <= i < |entries| ==> '\n' !in entries[i]
    requires Get(p, "peerbook") == List(seq(|entries|, i requires 0 <= i < |entries| => Str(entries[i])))
    ensures MinerValue(Peerbook, p).Ok? && MinerValue(Peerbook, p).value.Str?
    ensures Text.Split(MinerValue(Peerbook, p).value.s, '\n') == entries
  {
    JoinLinesRoundTrip(entries);
  }

  /** `error` is `None` exactly when the field is absent or falsy, and the
      field itself otherwise. */
  lemma ErrorValue(p: Payload)
    ensures MinerValue(ErrorField, p) == Ok(Null) <==> "error" !in p || !Truthy(p["error"])
    ensures MinerValue(ErrorField, p) != Ok(Null) ==> MinerValue(ErrorField, p) == Ok(p["error"])
  {
  }

  /** The temperature getters in terms of the two sensor readings; a payload
      any of them reads successfully is not empty. */
  lemma TemperatureReadings(p: Payload)
    ensures TempValue(Temp0, p).Ok? <==> Reading(p, "temp0").Ok?
    ensures TempValue(Temp1, p).Ok? <==> Reading(p, "temp1").Ok?
    ensures TempValue(Temp0, p).Ok? ==> TempValue(Temp0, p).value == Int(Reading(p, "temp0").value)
    ensures TempValue(Temp1, p).Ok? ==> TempValue(Temp1, p).value == Int(Reading(p, "temp1").value)
    ensures TempValue(Temp0, p).Err? ==> TempValue(HighestTemp, p) == TempValue(Temp0, p)
    ensures TempValue(Temp0, p).Ok? && TempValue(Temp1, p).Err? ==> TempValue(HighestTemp, p) == TempValue(Temp1, p)
    ensures TempValue(Temp0, p).Ok? && TempValue(Temp1, p).Ok? ==>
      TempValue(HighestTemp, p) == Ok(Int(Fields.Highest(Reading(p, "temp0").value, Reading(p, "temp1").value)))
    ensures TempValue(Temp0, p).Ok? ==> p != map[]
  {
  }
}
