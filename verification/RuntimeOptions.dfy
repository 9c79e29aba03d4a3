/** The option tree: eight domains of typed fields, flattened to one map from field to value. */
module RuntimeOptions {
  import opened PythonText
  import opened Decimals

  datatype Value =
    | NoneValue
    | BoolValue(b: bool)
    | IntValue(i: int)
    | FloatValue(d: Decimal)
    | TextValue(s: string)
    | PathValue(path: string)
    | ListValue(items: seq<string>)
    | PairsValue(pairs: seq<(string, string)>)

  datatype Field =
    | NetworkHost | NetworkPort
    | DashboardDebug | DashboardHeartbeat | DashboardStartupTimeout | DashboardLogLevel | DashboardFrontendMode
    | BrowserPolicy | BrowserReadinessTimeout | BrowserReadinessInterval | BrowserSessionId
    | MonitoringInstrumentation | MonitoringLagWarning | MonitoringLagCritical | MonitoringLagFreeze
    | MonitoringLagSample | MonitoringStackTraces
    | WarningBufferSize | WarningCooldown
    | RecordingEnabled | RecordingOutputPath | RecordingCompression | RecordingChunkEvents | RecordingChunkBytes
    | RecordingQueueCapacity | RecordingFlushInterval | RecordingBackpressure | RecordingInclude | RecordingExclude
    | RecordingRuntimeSnapshot | RecordingWarningSnapshot | RecordingMetadata
    | ReplayBufferCapacity | ReplayRetention | ReplayCheckpointInterval
    | SecurityLoopbackOnly | SecurityAllowRemote

  /** The fields in declaration order, domain by domain. */
  const FIELDS: seq<Field> := [
    NetworkHost, NetworkPort,
    DashboardDebug, DashboardHeartbeat, DashboardStartupTimeout, DashboardLogLevel, DashboardFrontendMode,
    BrowserPolicy, BrowserReadinessTimeout, BrowserReadinessInterval, BrowserSessionId,
    MonitoringInstrumentation, MonitoringLagWarning, MonitoringLagCritical, MonitoringLagFreeze,
    MonitoringLagSample, MonitoringStackTraces,
    WarningBufferSize, WarningCooldown,
    RecordingEnabled, RecordingOutputPath, RecordingCompression, RecordingChunkEvents, RecordingChunkBytes,
    RecordingQueueCapacity, RecordingFlushInterval, RecordingBackpressure, RecordingInclude, RecordingExclude,
    RecordingRuntimeSnapshot, RecordingWarningSnapshot, RecordingMetadata,
    ReplayBufferCapacity, ReplayRetention, ReplayCheckpointInterval,
    SecurityLoopbackOnly, SecurityAllowRemote]

  type Options = map<Field, Value>

  ghost predicate Complete(o: Options) {
    forall f: Field :: f in o
  }

  function Whole(n: int): Value {
    FloatValue(Decimal(n, 0))
  }

  function Default(f: Field): Value {
    match f
    case NetworkHost => TextValue("127.0.0.1")
    case NetworkPort => IntValue(8877)
    case DashboardDebug => BoolValue(false)
    case DashboardHeartbeat => Whole(5)
    case DashboardStartupTimeout => Whole(5)
    case DashboardLogLevel => NoneValue
    case DashboardFrontendMode => TextValue("auto")
    case BrowserPolicy => TextValue("auto")
    case BrowserReadinessTimeout => Whole(5)
    case BrowserReadinessInterval => FloatValue(Decimal(1, 1))
    case BrowserSessionId => NoneValue
    case MonitoringInstrumentation => BoolValue(true)
    case MonitoringLagWarning => Whole(50)
    case MonitoringLagCritical => Whole(250)
    case MonitoringLagFreeze => Whole(1000)
    case MonitoringLagSample => Whole(10)
    case MonitoringStackTraces => BoolValue(true)
    case WarningBufferSize => IntValue(256)
    case WarningCooldown => Whole(500)
    case RecordingEnabled => BoolValue(false)
    case RecordingOutputPath => NoneValue
    case RecordingCompression => TextValue("gzip")
    case RecordingChunkEvents => IntValue(4096)
    case RecordingChunkBytes => IntValue(4 * 1024 * 1024)
    case RecordingQueueCapacity => IntValue(16384)
    case RecordingFlushInterval => Whole(1)
    case RecordingBackpressure => TextValue("drop_newest")
    case RecordingInclude => NoneValue
    case RecordingExclude => ListValue([])
    case RecordingRuntimeSnapshot => BoolValue(true)
    case RecordingWarningSnapshot => BoolValue(true)
    case RecordingMetadata => PairsValue([])
    case ReplayBufferCapacity => IntValue(8192)
    case ReplayRetention => Whole(600)
    case ReplayCheckpointInterval => Whole(30)
    case SecurityLoopbackOnly => BoolValue(true)
    case SecurityAllowRemote => BoolValue(false)
  }

  function DefaultOptions(): (o: Options)
    ensures Complete(o) && forall f: Field :: o[f] == Default(f)
  {
    map f: Field | true :: Default(f)
  }

  const LOG_LEVELS: seq<string> := ["DEBUG", "INFO", "WARNING", "ERROR", "CRITICAL"]
  const FRONTEND_MODES: seq<string> := ["auto", "embedded", "api-only"]
  const POLICIES: seq<string> := ["auto", "always", "never"]
  const COMPRESSIONS: seq<string> := ["none", "gzip"]
  const BACKPRESSURES: seq<string> := ["drop_newest", "drop_oldest"]

  predicate OneOf(v: Value, choices: seq<string>) {
    v.TextValue? && v.s in choices
  }

  predicate IsNumber(v: Value) {
    v.FloatValue? && Normal(v.d)
  }

  /** The annotated type of a field. */
  predicate TypeOk(f: Field, v: Value) {
    match f
    case NetworkHost => v.TextValue?
    case NetworkPort => v.IntValue?
    case DashboardDebug => v.BoolValue?
    case DashboardHeartbeat => IsNumber(v)
    case DashboardStartupTimeout => IsNumber(v)
    case DashboardLogLevel => v.NoneValue? || OneOf(v, LOG_LEVELS)
    case DashboardFrontendMode => OneOf(v, FRONTEND_MODES)
    case BrowserPolicy => OneOf(v, POLICIES)
    case BrowserReadinessTimeout => IsNumber(v)
    case BrowserReadinessInterval => IsNumber(v)
    case BrowserSessionId => v.NoneValue? || v.TextValue?
    case MonitoringInstrumentation => v.BoolValue?
    case MonitoringLagWarning => IsNumber(v)
    case MonitoringLagCritical => IsNumber(v)
    case MonitoringLagFreeze => IsNumber(v)
    case MonitoringLagSample => IsNumber(v)
    case MonitoringStackTraces => v.BoolValue?
    case WarningBufferSize => v.IntValue?
    case WarningCooldown => IsNumber(v)
    case RecordingEnabled => v.BoolValue?
    case RecordingOutputPath => v.NoneValue? || v.PathValue?
    case RecordingCompression => OneOf(v, COMPRESSIONS)
    case RecordingChunkEvents => v.IntValue?
    case RecordingChunkBytes => v.IntValue?
    case RecordingQueueCapacity => v.IntValue?
    case RecordingFlushInterval => IsNumber(v)
    case RecordingBackpressure => OneOf(v, BACKPRESSURES)
    case RecordingInclude => v.NoneValue? || v.ListValue?
    case RecordingExclude => v.ListValue?
    case RecordingRuntimeSnapshot => v.BoolValue?
    case RecordingWarningSnapshot => v.BoolValue?
    case RecordingMetadata => v.PairsValue?
    case ReplayBufferCapacity => v.IntValue?
    case ReplayRetention => IsNumber(v)
    case ReplayCheckpointInterval => IsNumber(v)
    case SecurityLoopbackOnly => v.BoolValue?
    case SecurityAllowRemote => v.BoolValue?
  }

  ghost predicate WellTyped(o: Options) {
    Complete(o) && forall f: Field :: TypeOk(f, o[f])
  }

  /** bool(value). */
  predicate Truthy(v: Value) {
    match v
    case NoneValue => false
    case BoolValue(b) => b
    case IntValue(i) => i != 0
    case FloatValue(d) => d.mantissa != 0
    case TextValue(s) => s != ""
    case PathValue(_) => true
    case ListValue(items) => items != []
    case PairsValue(pairs) => pairs != []
  }

  /** str(value); tuples are printed by their own branch of Emit. */
  function StrOf(v: Value): string {
    match v
    case NoneValue => "None"
    case BoolValue(b) => if b then "True" else "False"
    case IntValue(i) => PrintInt(i)
    case FloatValue(d) => PrintDecimal(d)
    case TextValue(s) => s
    case PathValue(p) => p
    case ListValue(_) => ""
    case PairsValue(_) => ""
  }
}
