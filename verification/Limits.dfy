/** Server-size discovery and the clamping of configured segment limits. */
module Limits {
  import opened Common
  import opened Sharding

  const SAFETY_MARGIN_BYTES := 65536
  const MIN_RECORD_BYTES := 131072
  const MAX_RECORD_BYTES := 8388608

  datatype SizeConfig = SizeConfig(target: pos, max: Option<pos>, min: pos, single: Option<pos>, ttl: int)

  datatype ServerLimits = ServerLimits(maxRecord: int, nsupPeriod: int)

  datatype LimitsError = CapMissing | CapOutOfRange | TtlWithoutNsup

  predicate CapInRange(cap: int) {
    MIN_RECORD_BYTES <= cap <= MAX_RECORD_BYTES
  }

  predicate IsPositive(v: Option<int>) {
    v.Some? && v.value > 0
  }

  /** `max-record-size` wins over `write-block-size`; a value that is not positive counts as absent. */
  function Discover(maxRecordSize: Option<int>, writeBlockSize: Option<int>, nsupPeriod: int)
    : (r: Result<ServerLimits, LimitsError>)
    ensures r.Ok? ==> CapInRange(r.value.maxRecord) && Some(r.value.maxRecord) in {maxRecordSize, writeBlockSize}
    // a positive max-record-size decides alone, whatever the other field says
    ensures IsPositive(maxRecordSize) ==>
              (r.Ok? <==> CapInRange(maxRecordSize.value)) && (r.Ok? ==> r.value.maxRecord == maxRecordSize.value)
    ensures !IsPositive(maxRecordSize) ==> (r.Ok? <==> writeBlockSize.Some? && CapInRange(writeBlockSize.value))
    ensures r.Ok? ==> r.value.nsupPeriod == nsupPeriod
    ensures r == Err(CapMissing) <==> !IsPositive(maxRecordSize) && !IsPositive(writeBlockSize)
  {
    var cap :=
      if IsPositive(maxRecordSize) then maxRecordSize
      else if IsPositive(writeBlockSize) then writeBlockSize
      else None;
    if cap.None? then Err(CapMissing)
    else if cap.value < MIN_RECORD_BYTES || cap.value > MAX_RECORD_BYTES then Err(CapOutOfRange)
    else Ok(ServerLimits(cap.value, nsupPeriod))
  }

  function Resolve(cfg: SizeConfig, server: ServerLimits): Result<SegmentLimits, LimitsError>
    requires CapInRange(server.maxRecord)
  {
    if cfg.ttl > 0 && server.nsupPeriod <= 0 then Err(TtlWithoutNsup)
    else
      var effective := server.maxRecord - SAFETY_MARGIN_BYTES;
      var max := Min(if cfg.max.Some? then cfg.max.value else effective, effective);
      var target := Min(cfg.target, effective);
      var single := Min(if cfg.single.Some? then cfg.single.value else target, effective);
      Ok(SegmentLimits(target, max, cfg.min, single))
  }

  predicate IsLesser(v: int, a: int, b: int) {
    v <= a && v <= b && (v == a || v == b)
  }

  /** From 128 KiB to 8 MiB. */
  lemma SupportedCaps(cap: int)
    ensures CapInRange(cap) <==> 128 * 1024 <= cap <= 8 * 1024 * 1024
  {
  }

  /** Resolution fails exactly for a positive time to live without expiry on the server; and each limit is what was
      configured, or its default, unless the server cap is tighter. */
  lemma ResolvesExactly(cfg: SizeConfig, server: ServerLimits)
    requires CapInRange(server.maxRecord)
    ensures Resolve(cfg, server) == Err(TtlWithoutNsup) <==> cfg.ttl > 0 && server.nsupPeriod <= 0
    ensures Resolve(cfg, server).Err? ==> Resolve(cfg, server) == Err(TtlWithoutNsup)
    ensures Resolve(cfg, server).Ok? ==>
              var r, cap := Resolve(cfg, server).value, server.maxRecord - 65536;
              && IsLesser(r.target, cfg.target, cap)
              && IsLesser(r.max, if cfg.max.Some? then cfg.max.value else cap, cap)
              && IsLesser(r.single, if cfg.single.Some? then cfg.single.value else r.target, cap)
              && r.min == cfg.min
  {
  }

  /** Through discovery and clamping, planning a non-empty payload fails exactly when an operator
      override of the maximum undercuts the clamped target; so never without an override. */
  lemma ResolvedPlanFailsExactly(cfg: SizeConfig, server: ServerLimits, payload: nat)
    requires CapInRange(server.maxRecord) && Resolve(cfg, server).Ok?
    ensures Plan(payload, Resolve(cfg, server).value).Err?
            <==> && payload > 0
                 && cfg.max.Some?
                 && cfg.max.value < Min(cfg.target, server.maxRecord - SAFETY_MARGIN_BYTES)
  {
    PlanFailsExactly(payload, Resolve(cfg, server).value);
  }

  /** No record of a plan carries more payload than the server cap minus the margin. */
  lemma PlannedRecordsFitTheServer(cfg: SizeConfig, server: ServerLimits, p: bytes, plan: ShardPlan, i: nat)
    requires CapInRange(server.maxRecord) && Resolve(cfg, server).Ok?
    requires Plan(|p|, Resolve(cfg, server).value) == Ok(plan)
    ensures plan.nseg == 1 ==> |p| <= server.maxRecord - 65536
    ensures plan.nseg > 1 && i < plan.nseg ==> 0 < |Cut(p, i, plan.segB)| <= server.maxRecord - 65536
  {
    PlanBounds(|p|, Resolve(cfg, server).value);
    if plan.nseg > 1 && i < plan.nseg {
      CutLength(p, plan, i);
    }
  }

  datatype NativeLimits = NativeLimits(target: pos, max: pos)

  /** The native constructor: the threshold for one record is the target itself. */
  function NativeResolve(target: nat, recordCap: nat): Option<NativeLimits> {
    if recordCap <= SAFETY_MARGIN_BYTES then None
    else
      var max := recordCap - SAFETY_MARGIN_BYTES;
      Some(NativeLimits(if target == 0 then max else Min(target, max), max))
  }

  lemma NativeResolvesExactly(target: nat, recordCap: nat)
    ensures NativeResolve(target, recordCap).None? <==> recordCap <= 65536
    ensures NativeResolve(target, recordCap).Some? ==>
              var r := NativeResolve(target, recordCap).value;
              && r.max == recordCap - 65536
              && IsLesser(r.target, if target == 0 then r.max else target, r.max)
  {
  }
}
