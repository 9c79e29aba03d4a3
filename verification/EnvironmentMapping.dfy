/** The declarative table from environment variable to option. */
module EnvironmentMapping {
  import opened PythonText
  import opened RuntimeOptions
  import opened EnvironmentParsing

  /** The table reads the output path with the path parser and the event-type fields with the list parser. */
  datatype Spec = Spec(
    envName: string, target: Field, kind: ParseKind, aliases: seq<string>, choices: seq<string>, separator: char,
    secret: bool)

  function AllNames(s: Spec): seq<string> {
    [s.envName] + s.aliases
  }

  function Core(name: string, target: Field, kind: ParseKind): Spec {
    Spec(name, target, kind, [], [], ',', false)
  }

  function CoreEnum(name: string, target: Field, choices: seq<string>): Spec {
    Spec(name, target, Enum, [], choices, ',', false)
  }

  const CORE_SPECS: seq<Spec> := [
    Core("ASYNCVIZ_HOST", NetworkHost, Text),
    Core("ASYNCVIZ_PORT", NetworkPort, Int),
    Core("ASYNCVIZ_DEBUG", DashboardDebug, Bool),
    CoreEnum("ASYNCVIZ_LOG_LEVEL", DashboardLogLevel, LOG_LEVELS),
    CoreEnum("ASYNCVIZ_FRONTEND_MODE", DashboardFrontendMode, FRONTEND_MODES),
    Core("ASYNCVIZ_HEARTBEAT_INTERVAL", DashboardHeartbeat, Seconds),
    Core("ASYNCVIZ_STARTUP_TIMEOUT", DashboardStartupTimeout, Seconds),
    CoreEnum("ASYNCVIZ_BROWSER", BrowserPolicy, POLICIES),
    Core("ASYNCVIZ_NO_BROWSER", BrowserPolicy, Bool),
    Core("ASYNCVIZ_ENABLE_INSTRUMENTATION", MonitoringInstrumentation, Bool),
    Core("ASYNCVIZ_LAG_WARNING_MS", MonitoringLagWarning, Milliseconds),
    Core("ASYNCVIZ_LAG_CRITICAL_MS", MonitoringLagCritical, Milliseconds),
    Core("ASYNCVIZ_LAG_FREEZE_MS", MonitoringLagFreeze, Milliseconds),
    Core("ASYNCVIZ_LAG_SAMPLE_INTERVAL_MS", MonitoringLagSample, Milliseconds),
    Core("ASYNCVIZ_CAPTURE_STACK_TRACES", MonitoringStackTraces, Bool),
    Core("ASYNCVIZ_RECORDING_OUTPUT", RecordingOutputPath, Path),
    CoreEnum("ASYNCVIZ_RECORDING_COMPRESSION", RecordingCompression, COMPRESSIONS),
    Core("ASYNCVIZ_RECORDING_CHUNK_EVENTS", RecordingChunkEvents, Int),
    Core("ASYNCVIZ_RECORDING_CHUNK_BYTES", RecordingChunkBytes, Int),
    Core("ASYNCVIZ_RECORDING_QUEUE_CAPACITY", RecordingQueueCapacity, Int),
    CoreEnum("ASYNCVIZ_RECORDING_BACKPRESSURE", RecordingBackpressure, BACKPRESSURES),
    Core("ASYNCVIZ_RECORDING_INCLUDE_EVENTS", RecordingInclude, List),
    Core("ASYNCVIZ_RECORDING_EXCLUDE_EVENTS", RecordingExclude, List),
    Core("ASYNCVIZ_REPLAY_BUFFER_CAPACITY", ReplayBufferCapacity, Int),
    Core("ASYNCVIZ_REPLAY_RETENTION", ReplayRetention, Seconds),
    Core("ASYNCVIZ_BIND_LOOPBACK_ONLY", SecurityLoopbackOnly, Bool),
    Core("ASYNCVIZ_ALLOW_REMOTE", SecurityAllowRemote, Bool)]

  /** The variable whose truth forces the browser policy to never. */
  predicate IsNoBrowser(s: Spec) {
    s.target == BrowserPolicy && EndsWith(s.envName, "_NO_BROWSER")
  }
}
