/**
 * The educational logger demo: a log of operations with counters and a
 * FLOP estimate per mathematical operation, training-epoch records, named
 * timers, phase changes, and the demo's linear congruential generator.
 *
 * Instants are whole milliseconds passed in by the caller; durations and
 * losses (`f32`/`f64`) are reals.
 */
module EducationalLogging {
  import opened Wrappers

  datatype ModelPhase =
    | Initialization
    | Preprocessing
    | Training(epoch: nat, batch: nat)
    | Inference(step: nat)
    | Evaluation

  datatype OperationType =
    | InitializationOp(name: string)
    | Forward(name: string)
    | Backward(name: string)
    | Attention(name: string)
    | Mathematical(name: string)
    | Metric(name: string)
    | Warning(name: string)

  datatype LogData =
    | TensorInfo(shape: seq<nat>, dtype: string, device: string, memoryMb: real)
    | MathResult(inputShapes: seq<seq<nat>>, outputShape: seq<nat>, operation: string, flops: nat)
    | MetricData(metricName: string, value: real, unit: string)
    | Performance(durationMs: real, memoryDeltaMb: real, cpuUsage: real)
    | Text(text: string)

  datatype LogEntry = LogEntry(timestamp: nat, operationType: OperationType, description: string, data: LogData, importance: nat)

  datatype LogStats = LogStats(
    totalOperations: nat,
    totalTimeMs: real,
    peakMemoryMb: real,
    totalFlops: nat,
    operationDistribution: map<string, nat>)

  datatype TrainingEpochMetrics = TrainingEpochMetrics(
    epoch: nat,
    avgLoss: real,
    minLoss: real,
    maxLoss: real,
    durationMs: nat,
    accuracy: Option<real>,
    gradientNorm: real,
    learningRate: real,
    memoryUsageMb: real)

  // ---------------------------------------------------------------------------
  // FLOP estimate
  // ---------------------------------------------------------------------------

  /** The product of a shape's dimensions, 1 for the empty shape. */
  function Product(shape: seq<nat>): nat {
    if shape == [] then 1 else shape[0] * Product(shape[1..])
  }

  /** The operation families `estimate_flops` tells apart by name. */
  datatype OpKind = MatMul | AttentionOp | Pointwise | OtherOp

  function KindOf(operation: string): OpKind {
    if operation == "matmul" || operation == "linear" then MatMul
    else if operation == "attention" then AttentionOp
    else if operation == "softmax" || operation == "gelu" || operation == "layernorm" then Pointwise
    else OtherOp
  }

  /** The shapes `estimate_flops` can index: a product of two inputs reads two dimensions of each. */
  predicate Indexable(operation: string, inputs: seq<seq<nat>>) {
    KindOf(operation) == MatMul && |inputs| >= 2 ==> |inputs[0]| >= 2 && |inputs[1]| >= 2
  }

  /** `estimate_flops`. */
  function EstimateFlops(operation: string, inputs: seq<seq<nat>>, output: seq<nat>): nat
    requires Indexable(operation, inputs)
  {
    match KindOf(operation)
    case MatMul => if |inputs| >= 2 then 2 * inputs[0][0] * inputs[0][1] * inputs[1][1] else 0
    case AttentionOp => if output != [] then 4 * output[0] * output[0] * output[0] else 0
    case Pointwise => Product(output) * 5
    case OtherOp => Product(output)
  }

  /**
   * A product of an m-by-k and a k'-by-n input costs 2·m·k·n, and nothing
   * when fewer than two inputs are given.
   */
  lemma MatMulFlops(operation: string, inputs: seq<seq<nat>>, output: seq<nat>)
    requires operation == "matmul" || operation == "linear"
    requires Indexable(operation, inputs)
    ensures |inputs| >= 2 ==> EstimateFlops(operation, inputs, output) == 2 * inputs[0][0] * inputs[0][1] * inputs[1][1]
    ensures |inputs| < 2 ==> EstimateFlops(operation, inputs, output) == 0
  {
  }

  /** Attention over s positions costs 4·s³; softmax, GELU and layer norm cost five operations per output element, any other name one. */
  lemma ElementwiseFlops(inputs: seq<seq<nat>>, output: seq<nat>)
    ensures output != [] ==> EstimateFlops("attention", inputs, output) == 4 * output[0] * output[0] * output[0]
    ensures EstimateFlops("softmax", inputs, output) == EstimateFlops("gelu", inputs, output)
      == EstimateFlops("layernorm", inputs, output) == 5 * EstimateFlops("add", inputs, output)
    ensures EstimateFlops("add", inputs, output) == Product(output)
  {
  }

  /** The FLOP test: a 32×768 by 768×3072 product is 150,994,944 operations. */
  lemma MatMulFlopsExample()
    ensures EstimateFlops("matmul", [[32, 768], [768, 3072]], [32, 3072]) == 2 * 32 * 768 * 3072 == 150994944
  {
  }

  // ---------------------------------------------------------------------------
  // Phase names
  // ---------------------------------------------------------------------------

  /** The name `start_phase` announces for a phase. */
  function PhaseName(phase: ModelPhase): string {
    match phase
    case Initialization => "🏗️ INICIALIZAÇÃO"
    case Preprocessing => "📊 PRÉ-PROCESSAMENTO"
    case Training(_, _) => "🎓 TREINAMENTO"
    case Inference(_) => "🔮 INFERÊNCIA"
    case Evaluation => "📈 AVALIAÇÃO"
  }

  /** Decimal digits of `n`, as `{}` prints it. */
  function Decimal(n: nat): string
    decreases n
  {
    var d := [(48 + n % 10) as char];
    if n < 10 then d else Decimal(n / 10) + d
  }

  /** The `{:?}` rendering of a phase. */
  function PhaseDebug(phase: ModelPhase): string {
    match phase
    case Initialization => "Initialization"
    case Preprocessing => "Preprocessing"
    case Training(e, b) => "Training { epoch: " + Decimal(e) + ", batch: " + Decimal(b) + " }"
    case Inference(s) => "Inference { step: " + Decimal(s) + " }"
    case Evaluation => "Evaluation"
  }

  // ---------------------------------------------------------------------------
  // The logger
  // ---------------------------------------------------------------------------

  /** The count recorded for `name`, 0 when it has none. */
  function CountOf(counts: map<string, nat>, name: string): nat {
    if name in counts then counts[name] else 0
  }

  /** The timestamps after a timer ends. */
  function Removed(timestamps: map<string, nat>, name: string): map<string, nat> {
    map n | n in timestamps && n != name :: timestamps[n]
  }

  class EducationalLogger {
    var operations: seq<LogEntry>
    var timestamps: map<string, nat>
    var stats: LogStats
    /** Fixed at construction: the `with_*` builders that change it are not modelled. */
    const verbosity: nat
    var currentPhase: ModelPhase
    var trainingMetrics: seq<TrainingEpochMetrics>
    var operationCounts: map<string, nat>
    const showTensors: bool
    const showAttention: bool

    /** The operation counter counts the log. */
    ghost predicate Valid()
      reads this
    {
      stats.totalOperations == |operations|
    }

    /** `EducationalLogger::new`: at initialisation, with nothing logged. */
    constructor(verbosity: nat)
      ensures Valid()
      ensures this.verbosity == verbosity && currentPhase == Initialization
      ensures operations == [] && timestamps == map[] && trainingMetrics == [] && operationCounts == map[]
      ensures stats == LogStats(0, 0.0, 0.0, 0, map[])
      ensures showTensors && showAttention
    {
      operations := [];
      timestamps := map[];
      stats := LogStats(0, 0.0, 0.0, 0, map[]);
      this.verbosity := verbosity;
      currentPhase := Initialization;
      trainingMetrics := [];
      operationCounts := map[];
      showTensors := true;
      showAttention := true;
    }

    /** `log_operation`: one entry stamped `now` at the end of the log and one more operation counted. */
    method LogOperation(operationType: OperationType, description: string, data: LogData, importance: nat, now: nat)
      requires Valid()
      modifies this
      ensures Valid()
      ensures operations == old(operations) + [LogEntry(now, operationType, description, data, importance)]
      ensures stats == old(stats).(totalOperations := old(stats.totalOperations) + 1)
      ensures timestamps == old(timestamps) && currentPhase == old(currentPhase)
      ensures trainingMetrics == old(trainingMetrics) && operationCounts == old(operationCounts)
    {
      operations := operations + [LogEntry(now, operationType, description, data, importance)];
      stats := stats.(totalOperations := stats.totalOperations + 1);
    }

    /** `start_phase`: the phase becomes current and its change is logged once. */
    method StartPhase(phase: ModelPhase, now: nat)
      requires Valid()
      modifies this
      ensures Valid()
      ensures currentPhase == phase
      ensures operations == old(operations) + [LogEntry(now, InitializationOp("phase_change"),
        "Iniciando fase: " + PhaseName(phase), Text("Transição para: " + PhaseDebug(phase)), 2)]
      ensures stats == old(stats).(totalOperations := old(stats.totalOperations) + 1)
      ensures timestamps == old(timestamps) && trainingMetrics == old(trainingMetrics)
      ensures operationCounts == old(operationCounts)
    {
      currentPhase := phase;
      LogOperation(InitializationOp("phase_change"), "Iniciando fase: " + PhaseName(phase),
        Text("Transição para: " + PhaseDebug(currentPhase)), 2, now);
    }

    /** `start_timer`: the timer for `operation` starts at `now`. */
    method StartTimer(operation: string, now: nat)
      modifies this
      ensures timestamps == old(timestamps)[operation := now]
      ensures operations == old(operations) && stats == old(stats)
      ensures currentPhase == old(currentPhase) && trainingMetrics == old(trainingMetrics)
      ensures operationCounts == old(operationCounts)
    {
      timestamps := timestamps[operation := now];
    }

    /**
     * `end_timer`: for a running timer, the milliseconds since it started,
     * added to the total time, and the timer removed; for any other name, 0
     * and nothing changes.
     */
    method EndTimer(operation: string, now: nat) returns (duration: real)
      requires Valid()
      modifies this
      ensures Valid()
      ensures operation in old(timestamps) ==>
        (duration == (if now >= old(timestamps)[operation] then now - old(timestamps)[operation] else 0) as real
         && timestamps == Removed(old(timestamps), operation)
         && stats == old(stats).(totalTimeMs := old(stats.totalTimeMs) + duration))
      ensures operation !in old(timestamps) ==>
        (duration == 0.0 && timestamps == old(timestamps) && stats == old(stats))
      ensures operations == old(operations) && trainingMetrics == old(trainingMetrics)
      ensures operationCounts == old(operationCounts) && currentPhase == old(currentPhase)
    {
      if operation in timestamps {
        var startTime := timestamps[operation];
        timestamps := Removed(timestamps, operation);
        duration := (if now >= startTime then now - startTime else 0) as real;
        stats := stats.(totalTimeMs := stats.totalTimeMs + duration);
      } else {
        duration := 0.0;
      }
    }

    /**
     * `log_math_operation`: the estimate is added to the FLOP total, the
     * operation's count goes up by one, and one entry is logged.
     */
    method LogMathOperation(operationName: string, inputShapes: seq<seq<nat>>, outputShape: seq<nat>, explanation: string, now: nat)
      requires Valid() && Indexable(operationName, inputShapes)
      modifies this
      ensures Valid()
      ensures var flops := EstimateFlops(operationName, inputShapes, outputShape);
        stats == old(stats).(totalOperations := old(stats.totalOperations) + 1, totalFlops := old(stats.totalFlops) + flops)
        && operations == old(operations) + [LogEntry(now, Mathematical(operationName), explanation,
          MathResult(inputShapes, outputShape, operationName, flops), 1)]
      ensures operationCounts == old(operationCounts)[operationName := CountOf(old(operationCounts), operationName) + 1]
      ensures timestamps == old(timestamps) && trainingMetrics == old(trainingMetrics) && currentPhase == old(currentPhase)
    {
      var flops := EstimateFlops(operationName, inputShapes, outputShape);
      stats := stats.(totalFlops := stats.totalFlops + flops);
      operationCounts := operationCounts[operationName := CountOf(operationCounts, operationName) + 1];
      LogOperation(Mathematical(operationName), explanation, MathResult(inputShapes, outputShape, operationName, flops), 1, now);
    }

    /** `log_training_epoch`: one record for the epoch, no accuracy, the peak memory so far; the log is untouched. */
    method LogTrainingEpoch(epoch: nat, avgLoss: real, minLoss: real, maxLoss: real, gradientNorm: real, learningRate: real, durationMs: nat)
      modifies this
      ensures trainingMetrics == old(trainingMetrics) + [TrainingEpochMetrics(epoch, avgLoss, minLoss, maxLoss, durationMs,
        None, gradientNorm, learningRate, old(stats.peakMemoryMb))]
      ensures operations == old(operations) && stats == old(stats) && timestamps == old(timestamps)
      ensures operationCounts == old(operationCounts) && currentPhase == old(currentPhase)
    {
      var metrics := TrainingEpochMetrics(epoch, avgLoss, minLoss, maxLoss, durationMs, None, gradientNorm, learningRate, stats.peakMemoryMb);
      trainingMetrics := trainingMetrics + [metrics];
    }
  }

  /** The initialisation test: verbosity 1, initialisation phase, nothing logged. */
  method InitializationScenario() returns (verbosity: nat, phase: ModelPhase, logged: nat)
    ensures verbosity == 1 && phase == Initialization && logged == 0
  {
    var logger := new EducationalLogger(1);
    verbosity, phase, logged := logger.verbosity, logger.currentPhase, |logger.operations|;
  }

  /** The timer test, with the instants of start and stop given: the duration is the time between them. */
  method TimerScenario(started: nat, stopped: nat) returns (duration: real)
    requires started <= stopped
    ensures duration == (stopped - started) as real
  {
    var logger := new EducationalLogger(0);
    logger.StartTimer("test_op", started);
    duration := logger.EndTimer("test_op", stopped);
  }

  /** The math-logging test: one entry, one operation counted, and a positive FLOP total. */
  method MathLoggingScenario(now: nat) returns (logged: nat, counted: nat, flops: nat)
    ensures logged == 1 && counted == 1 && flops == 150994944
  {
    var logger := new EducationalLogger(0);
    MatMulFlopsExample();
    logger.LogMathOperation("matmul", [[32, 768], [768, 3072]], [32, 3072], "Matrix multiplication test", now);
    logged, counted, flops := |logger.operations|, logger.stats.totalOperations, logger.stats.totalFlops;
  }

  /** The training-metrics test: one record, for epoch 1 with average loss 2.5. */
  method TrainingScenario() returns (metrics: seq<TrainingEpochMetrics>)
    ensures |metrics| == 1 && metrics[0].epoch == 1 && metrics[0].avgLoss == 2.5
  {
    var logger := new EducationalLogger(0);
    logger.LogTrainingEpoch(1, 2.5, 2.3, 2.7, 0.5, 0.001, 5000);
    metrics := logger.trainingMetrics;
  }

  /** The phase test: each `start_phase` makes its phase current. */
  method PhaseScenario(now: nat) returns (first: ModelPhase, second: ModelPhase)
    ensures first == Training(1, 0) && second == Inference(5)
  {
    var logger := new EducationalLogger(0);
    logger.StartPhase(Training(1, 0), now);
    first := logger.currentPhase;
    logger.StartPhase(Inference(5), now);
    second := logger.currentPhase;
  }

  // ---------------------------------------------------------------------------
  // Random numbers
  // ---------------------------------------------------------------------------

  const TwoTo64: nat := 0x1_0000_0000_0000_0000

  /** One step of the generator: seed·1103515245 + 12345, wrapping at 2⁶⁴. */
  function Lcg(seed: nat): (r: nat)
    ensures r < TwoTo64
  {
    (seed * 1103515245 + 12345) % TwoTo64
  }

  /** The thread-local seed cell of the demo's `rand` module. */
  class SeedCell {
    var seed: nat

    constructor()
      ensures seed == 1
    {
      seed := 1;
    }

    /** `random_u64`: advances the seed and returns its last two decimal digits. */
    method RandomU64() returns (r: nat)
      modifies this
      ensures seed == Lcg(old(seed)) && r == seed % 100
      ensures r < 100
    {
      seed := Lcg(seed);
      r := seed % 100;
    }
  }

  /** Every draw from a fresh cell stays below 100; the first is 90. */
  method FirstDraws() returns (first: nat, second: nat)
    ensures first == 90 && second < 100
  {
    var cell := new SeedCell();
    first := cell.RandomU64();
    second := cell.RandomU64();
  }
}
