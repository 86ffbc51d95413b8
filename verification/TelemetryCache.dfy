/** The cached fields as the client keeps them, updated in place by what it reads. */
module TelemetryCache {
  import opened Wrappers
  import opened ConnectionCache

  /** Each connection-scoped value has the generation it was written under beside it. */
  class TelemetryCache {
    var connectionGeneration: nat
    var lastHomeFlag: Option<nat>
    var lastHomeFlagGeneration: Option<nat>
    var lastSettingsHomeFlag: Option<nat>
    var lastSettingsHomeFlagGeneration: Option<nat>
    var lastFirmware: Option<string>
    var lastFirmwareGeneration: Option<nat>
    var lastCfg: Option<string>
    var lastGcodeState: Option<PrintStatus>
    var lastGcodeFile: Option<string>
    var lastPlateIdx: Option<nat>
    var lastJobStart: Option<JobStart>

    function View(): Cache
      reads this
    {
      Cache(connectionGeneration,
            Stamped(lastHomeFlag, lastHomeFlagGeneration),
            Stamped(lastSettingsHomeFlag, lastSettingsHomeFlagGeneration),
            Stamped(lastFirmware, lastFirmwareGeneration),
            lastCfg, lastGcodeState, lastGcodeFile, lastPlateIdx, lastJobStart)
    }

    constructor ()
      ensures View() == COLD
    {
      connectionGeneration := 0;
      lastHomeFlag, lastHomeFlagGeneration := None, None;
      lastSettingsHomeFlag, lastSettingsHomeFlagGeneration := None, None;
      lastFirmware, lastFirmwareGeneration := None, None;
      lastCfg, lastGcodeState, lastGcodeFile, lastPlateIdx, lastJobStart := None, None, None, None, None;
    }

    /** Marks a connection boundary; the generation is a `u32` that wraps. */
    method BeginConnection()
      modifies this
      ensures View() == old(View()).BeginConnection()
    {
      connectionGeneration := (connectionGeneration + 1) % GENERATIONS;
    }

    /** What a status frame of a report writes. */
    method OnReport(frame: StatusFrame)
      modifies this
      ensures View() == old(View()).OnReport(frame)
    {
      if frame.homeFlag.Some? && (lastCfg.None? || frame.keys > FULL_REPORT_MIN_KEYS) {
        lastSettingsHomeFlag, lastSettingsHomeFlagGeneration := frame.homeFlag, Some(connectionGeneration);
      }
      UpdateJobCache(frame);
      UpdateStateCache(frame);
    }

    /** The plate goes with its file, and the start with its job. */
    method UpdateJobCache(frame: StatusFrame)
      modifies this
      ensures View() == old(View()).UpdateJob(frame)
    {
      if frame.gcodeFile.Some? && lastGcodeFile != frame.gcodeFile {
        lastPlateIdx := None;
        lastGcodeFile := frame.gcodeFile;
      }
      if frame.plateIdx.Some? && frame.plateIdx.value > 0 {
        lastPlateIdx := Some(frame.plateIdx.value);
      }
      var ended := frame.gcodeState.Some? && frame.gcodeState.value.IsEnded();
      var wasBusy := lastGcodeState.Some? && lastGcodeState.value.IsBusy();
      if ended && wasBusy {
        lastJobStart := None;
      }
    }

    method UpdateStateCache(frame: StatusFrame)
      modifies this
      ensures View() == old(View()).UpdateState(frame)
    {
      if frame.homeFlag.Some? {
        lastHomeFlag, lastHomeFlagGeneration := frame.homeFlag, Some(connectionGeneration);
      }
      if frame.gcodeState.Some? {
        lastGcodeState := frame.gcodeState;
      }
      if frame.cfg.Some? {
        lastCfg := frame.cfg;
      }
    }

    /** Holds an accepted start in place of an older one; without a plate and a file it changes nothing. */
    method RecordJobStart(fields: StartFields)
      modifies this
      ensures View() == old(View()).OnStart(fields)
    {
      hide LastSegment;
      var file := if fields.file.Some? then fields.file else fields.url;
      if fields.plate.None? || file.None? {
        return;
      }
      lastJobStart := Some(JobStart(LastSegment(file.value), fields.plate.value, connectionGeneration));
    }

    method RecordFirmwareVersion(version: string)
      modifies this
      ensures View() == old(View()).OnVersion(version)
    {
      lastFirmware, lastFirmwareGeneration := Some(version), Some(connectionGeneration);
    }
  }
}
