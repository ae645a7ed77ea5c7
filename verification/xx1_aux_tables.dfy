/** The register tables of the H1 and AC1 inverters: `H1` (H1 only), `AC1`
    (AC1 only) and `H1_AC1` (both). Each table is written as the
    concatenation of the runs of entries it lists, in the order it lists
    them, so that facts about a whole table can be assembled from facts
    about its runs. */
module Xx1AuxEntityDescriptions {
  import opened Wrappers
  import opened EntityDescriptions

  /** H1: the two PV strings, each with an integrated energy total. */
  const H1PvStrings: seq<Description> := [
    Sensor("pv1_voltage", 11000, 0.1, NoPostProcess, [Range(0.0, 1000.0)]),
    Sensor("pv1_current", 11001, 0.1, NoPostProcess, [Range(0.0, 100.0)]),
    Sensor("pv1_power", 11002, 0.001, NoPostProcess, [Range(0.0, 10000.0)]),
    IntegrationSensor("pv1_energy_total", "pv1_power"),
    Sensor("pv2_voltage", 11003, 0.1, NoPostProcess, [Range(0.0, 1000.0)]),
    Sensor("pv2_current", 11004, 0.1, NoPostProcess, [Range(0.0, 100.0)]),
    Sensor("pv2_power", 11005, 0.001, NoPostProcess, [Range(0.0, 10000.0)]),
    IntegrationSensor("pv2_energy_total", "pv2_power")
  ]

  /** H1: solar generation and battery energy counters. */
  const H1SolarAndBatteryEnergy: seq<Description> := [
    Sensor("solar_energy_total", 11070, 0.1, NoPostProcess, [Min(0.0)]),
    Sensor("solar_energy_today", 11071, 0.1, NoPostProcess, [Range(0.0, 100.0)]),
    Sensor("battery_charge_total", 11073, 0.1, NoPostProcess, [Min(0.0)]),
    Sensor("battery_charge_today", 11074, 0.1, NoPostProcess, [Range(0.0, 100.0)]),
    Sensor("battery_discharge_total", 11076, 0.1, NoPostProcess, [Min(0.0)]),
    Sensor("battery_discharge_today", 11077, 0.1, NoPostProcess, [Range(0.0, 100.0)])
  ]

  /** H1: feed-in, grid consumption and yield counters. The two totals are
      reported to overflow and declare no validation. */
  const H1GridAndYieldEnergy: seq<Description> := [
    Sensor("feed_in_energy_total", 11079, 0.1, NoPostProcess, [Min(0.0)]),
    Sensor("feed_in_energy_today", 11080, 0.1, NoPostProcess, [Range(0.0, 100.0)]),
    Sensor("grid_consumption_energy_total", 11082, 0.1, NoPostProcess, []),
    Sensor("grid_consumption_energy_today", 11083, 0.1, NoPostProcess, [Range(0.0, 100.0)]),
    Sensor("total_yield_total", 11085, 0.1, NoPostProcess, []),
    Sensor("total_yield_today", 11086, 0.1, NoPostProcess, [Range(-100.0, 100.0)])
  ]

  const H1: seq<Description> := H1PvStrings + H1SolarAndBatteryEnergy + H1GridAndYieldEnergy

  /** AC1: energy totals integrated from the split power sensors of `H1_AC1`. */
  const AC1: seq<Description> := [
    IntegrationSensor("grid_consumption_energy_total", "grid_consumption"),
    IntegrationSensor("feed_in_energy_total", "feed_in"),
    IntegrationSensor("battery_charge_total", "battery_charge"),
    IntegrationSensor("battery_discharge_total", "battery_discharge")
  ]

  /** H1_AC1: battery voltage and power, grid voltage, current and frequency.
      Register 11008 is signed and read twice, split into discharge and charge. */
  const H1Ac1BatteryAndGridPower: seq<Description> := [
    Sensor("invbatvolt", 11006, 0.1, NoPostProcess, [Min(0.0)]),
    Sensor("invbatpower", 11007, 0.01, NoPostProcess, [Range(-100.0, 100.0)]),
    Sensor("battery_discharge", 11008, 0.001, PositivePart, [Range(0.0, 100.0)]),
    Sensor("battery_charge", 11008, 0.001, NegativeMagnitude, [Range(0.0, 100.0)]),
    Sensor("rvolt", 11009, 0.1, NoPostProcess, [Range(0.0, 300.0)]),
    Sensor("rcurrent", 11010, 0.1, NoPostProcess, [Range(0.0, 100.0)]),
    Sensor("rfreq", 11014, 0.01, NoPostProcess, [Range(0.0, 60.0)]),
    Sensor("eps_rvolt", 11015, 0.1, NoPostProcess, [Range(0.0, 300.0)])
  ]

  /** H1_AC1: the CT meters and the load. Register 11021 is signed and read
      three times: unsplit, and split into feed-in and consumption. */
  const H1Ac1MetersAndLoad: seq<Description> := [
    Sensor("grid_ct", 11021, 0.001, NoPostProcess, [Range(-100.0, 100.0)]),
    Sensor("feed_in", 11021, 0.001, PositivePart, [Range(0.0, 100.0)]),
    Sensor("grid_consumption", 11021, 0.001, NegativeMagnitude, [Range(0.0, 100.0)]),
    Sensor("ct2_meter", 11022, 0.001, NoPostProcess, [Range(-100.0, 100.0)]),
    Sensor("load_power", 11023, 0.001, NoPostProcess, [Range(-100.0, 100.0)]),
    IntegrationSensor("load_power_total", "load_power")
  ]

  /** H1_AC1: temperatures and battery readings. */
  const H1Ac1TemperaturesAndBattery: seq<Description> := [
    Sensor("invtemp", 11024, 0.1, NoPostProcess, [Range(0.0, 100.0)]),
    Sensor("ambtemp", 11025, 0.1, NoPostProcess, [Range(0.0, 100.0)]),
    Sensor("batvolt", 11034, 0.1, NoPostProcess, [Min(0.0)]),
    Sensor("bat_current", 11035, 0.1, NoPostProcess, [Range(-100.0, 100.0)]),
    Sensor("battery_soc", 11036, 1.0, NoPostProcess, [Range(0.0, 100.0)]),
    Sensor("bms_kwh_remaining", 11037, 0.01, NoPostProcess, [Min(0.0)]),
    Sensor("battery_temp", 11038, 0.1, NoPostProcess, [Range(0.0, 100.0)])
  ]

  /** H1_AC1: the battery management system. Its watt-hour total is
      reported to overflow and declares no validation. */
  const H1Ac1Bms: seq<Description> := [
    Sensor("bms_charge_rate", 11041, 0.1, NoPostProcess, [Range(0.0, 100.0)]),
    Sensor("bms_discharge_rate", 11042, 0.1, NoPostProcess, [Range(0.0, 100.0)]),
    Sensor("bms_cell_temp_high", 11043, 0.1, NoPostProcess, [Range(0.0, 100.0)]),
    Sensor("bms_cell_temp_low", 11044, 0.1, NoPostProcess, [Range(0.0, 100.0)]),
    Sensor("bms_cell_mv_high", 11045, 1.0, NoPostProcess, [Min(0.0)]),
    Sensor("bms_cell_mv_low", 11046, 1.0, NoPostProcess, [Min(0.0)]),
    Sensor("bms_cycle_count", 11048, 1.0, NoPostProcess, [Min(0.0)]),
    Sensor("bms_watthours_total", 11049, 0.1, NoPostProcess, [])
  ]

  /** H1_AC1: the work-mode select and the state-of-charge settings, each
      setting listed twice: a sensor kept for backward compatibility, then
      the number that writes it. */
  const H1Ac1Settings: seq<Description> := [
    Select("work_mode", 41000, map[0 := "Self Use", 1 := "Feed-in First", 2 := "Back-up"]),
    Sensor("min_soc", 41009, 1.0, NoPostProcess, [Range(0.0, 100.0)]),
    Number("min_soc", 41009, Box, 10.0, 100.0, 1.0, [Range(0.0, 100.0)]),
    Sensor("max_soc", 41010, 1.0, NoPostProcess, [Range(0.0, 100.0)]),
    Number("max_soc", 41010, Box, 10.0, 100.0, 1.0, [Range(0.0, 100.0)]),
    Sensor("min_soc_on_grid", 41011, 1.0, NoPostProcess, [Range(0.0, 100.0)]),
    Number("min_soc_on_grid", 41011, Box, 10.0, 100.0, 1.0, [Range(0.0, 100.0)])
  ]

  const H1_AC1: seq<Description> :=
    H1Ac1BatteryAndGridPower + H1Ac1MetersAndLoad + H1Ac1TemperaturesAndBattery + H1Ac1Bms + H1Ac1Settings

  // Each run's pairs are checked as two halves and the pairs across them,
  // which keeps every proof obligation small.

  lemma PvStringsSharing()
    ensures SharesOnlyAsIntended(H1PvStrings)
  {
    var t := H1PvStrings;
    var a, b := [t[0], t[1], t[2], t[3]], [t[4], t[5], t[6], t[7]];
    assert SharesOnlyAsIntended(a) by {}
    assert SharesOnlyAsIntended(b) by {}
    assert SharesOnlyAsIntendedAcross(a, b) by {}
    assert t[..4] == a && t[4..] == b;
    SharesOnlyAsIntendedSplit(t, 4);
  }

  lemma SolarAndBatteryEnergySharing()
    ensures SharesOnlyAsIntended(H1SolarAndBatteryEnergy)
  {
    var t := H1SolarAndBatteryEnergy;
    var a, b := [t[0], t[1], t[2]], [t[3], t[4], t[5]];
    assert SharesOnlyAsIntended(a) by {}
    assert SharesOnlyAsIntended(b) by {}
    assert SharesOnlyAsIntendedAcross(a, b) by {}
    assert t[..3] == a && t[3..] == b;
    SharesOnlyAsIntendedSplit(t, 3);
  }

  lemma GridAndYieldEnergySharing()
    ensures SharesOnlyAsIntended(H1GridAndYieldEnergy)
  {
    var t := H1GridAndYieldEnergy;
    var a, b := [t[0], t[1], t[2]], [t[3], t[4], t[5]];
    assert SharesOnlyAsIntended(a) by {}
    assert SharesOnlyAsIntended(b) by {}
    assert SharesOnlyAsIntendedAcross(a, b) by {}
    assert t[..3] == a && t[3..] == b;
    SharesOnlyAsIntendedSplit(t, 3);
  }

  lemma AC1Sharing()
    ensures SharesOnlyAsIntended(AC1)
  {
  }

  lemma BatteryAndGridPowerSharing()
    ensures SharesOnlyAsIntended(H1Ac1BatteryAndGridPower)
  {
    var t := H1Ac1BatteryAndGridPower;
    var a, b := [t[0], t[1], t[2], t[3]], [t[4], t[5], t[6], t[7]];
    assert SharesOnlyAsIntended(a) by {}
    assert SharesOnlyAsIntended(b) by {}
    assert SharesOnlyAsIntendedAcross(a, b) by {}
    assert t[..4] == a && t[4..] == b;
    SharesOnlyAsIntendedSplit(t, 4);
  }

  lemma MetersAndLoadSharing()
    ensures SharesOnlyAsIntended(H1Ac1MetersAndLoad)
  {
    var t := H1Ac1MetersAndLoad;
    var a, b := [t[0], t[1], t[2]], [t[3], t[4], t[5]];
    assert SharesOnlyAsIntended(a) by {}
    assert SharesOnlyAsIntended(b) by {}
    assert SharesOnlyAsIntendedAcross(a, b) by {}
    assert t[..3] == a && t[3..] == b;
    SharesOnlyAsIntendedSplit(t, 3);
  }

  lemma TemperaturesAndBatterySharing()
    ensures SharesOnlyAsIntended(H1Ac1TemperaturesAndBattery)
  {
    var t := H1Ac1TemperaturesAndBattery;
    var a, b := [t[0], t[1], t[2]], [t[3], t[4], t[5], t[6]];
    assert SharesOnlyAsIntended(a) by {}
    assert SharesOnlyAsIntended(b) by {}
    assert SharesOnlyAsIntendedAcross(a, b) by {}
    assert t[..3] == a && t[3..] == b;
    SharesOnlyAsIntendedSplit(t, 3);
  }

  lemma BmsSharing()
    ensures SharesOnlyAsIntended(H1Ac1Bms)
  {
    var t := H1Ac1Bms;
    var a, b := [t[0], t[1], t[2], t[3]], [t[4], t[5], t[6], t[7]];
    assert SharesOnlyAsIntended(a) by {}
    assert SharesOnlyAsIntended(b) by {}
    assert SharesOnlyAsIntendedAcross(a, b) by {}
    assert t[..4] == a && t[4..] == b;
    SharesOnlyAsIntendedSplit(t, 4);
  }

  lemma SettingsSharing()
    ensures SharesOnlyAsIntended(H1Ac1Settings)
  {
    var t := H1Ac1Settings;
    var a, b := [t[0], t[1], t[2]], [t[3], t[4], t[5], t[6]];
    assert SharesOnlyAsIntended(a) by {}
    assert SharesOnlyAsIntended(b) by {}
    assert SharesOnlyAsIntendedAcross(a, b) by {}
    assert t[..3] == a && t[3..] == b;
    SharesOnlyAsIntendedSplit(t, 3);
  }

  lemma PvStringsBesideSolarAndBatteryEnergy()
    ensures SharesOnlyAsIntendedAcross(H1PvStrings, H1SolarAndBatteryEnergy)
  {
  }

  lemma PvStringsBesideGridAndYieldEnergy()
    ensures SharesOnlyAsIntendedAcross(H1PvStrings, H1GridAndYieldEnergy)
  {
  }

  lemma SolarAndBatteryEnergyBesideGridAndYieldEnergy()
    ensures SharesOnlyAsIntendedAcross(H1SolarAndBatteryEnergy, H1GridAndYieldEnergy)
  {
  }

  lemma BatteryAndGridPowerBesideMetersAndLoad()
    ensures SharesOnlyAsIntendedAcross(H1Ac1BatteryAndGridPower, H1Ac1MetersAndLoad)
  {
  }

  lemma BatteryAndGridPowerBesideTemperaturesAndBattery()
    ensures SharesOnlyAsIntendedAcross(H1Ac1BatteryAndGridPower, H1Ac1TemperaturesAndBattery)
  {
  }

  lemma BatteryAndGridPowerBesideBms()
    ensures SharesOnlyAsIntendedAcross(H1Ac1BatteryAndGridPower, H1Ac1Bms)
  {
  }

  lemma BatteryAndGridPowerBesideSettings()
    ensures SharesOnlyAsIntendedAcross(H1Ac1BatteryAndGridPower, H1Ac1Settings)
  {
  }

  lemma MetersAndLoadBesideTemperaturesAndBattery()
    ensures SharesOnlyAsIntendedAcross(H1Ac1MetersAndLoad, H1Ac1TemperaturesAndBattery)
  {
  }

  lemma MetersAndLoadBesideBms()
    ensures SharesOnlyAsIntendedAcross(H1Ac1MetersAndLoad, H1Ac1Bms)
  {
  }

  lemma MetersAndLoadBesideSettings()
    ensures SharesOnlyAsIntendedAcross(H1Ac1MetersAndLoad, H1Ac1Settings)
  {
  }

  lemma TemperaturesAndBatteryBesideBms()
    ensures SharesOnlyAsIntendedAcross(H1Ac1TemperaturesAndBattery, H1Ac1Bms)
  {
  }

  lemma TemperaturesAndBatteryBesideSettings()
    ensures SharesOnlyAsIntendedAcross(H1Ac1TemperaturesAndBattery, H1Ac1Settings)
  {
  }

  lemma BmsBesideSettings()
    ensures SharesOnlyAsIntendedAcross(H1Ac1Bms, H1Ac1Settings)
  {
  }

  /** Within each table, a key is repeated only by a back-compat sensor and
      the number that replaced it, on one register; and a register is read
      twice only by such a pair or by split views of one signed register. */
  lemma {:induction false} TablesShareOnlyAsIntended()
    ensures SharesOnlyAsIntended(H1)
    ensures SharesOnlyAsIntended(AC1)
    ensures SharesOnlyAsIntended(H1_AC1)
    ensures forall i, j :: 0 <= i < j < |H1_AC1| && H1_AC1[i].key == H1_AC1[j].key ==>
      BackCompatPair(H1_AC1[i], H1_AC1[j])
  {
    PvStringsSharing();
    SolarAndBatteryEnergySharing();
    GridAndYieldEnergySharing();
    PvStringsBesideSolarAndBatteryEnergy();
    PvStringsBesideGridAndYieldEnergy();
    SolarAndBatteryEnergyBesideGridAndYieldEnergy();
    var pvAndSolar := H1PvStrings + H1SolarAndBatteryEnergy;
    SharesOnlyAsIntendedConcat(H1PvStrings, H1SolarAndBatteryEnergy);
    SharesOnlyAsIntendedAcrossConcatLeft(H1PvStrings, H1SolarAndBatteryEnergy, H1GridAndYieldEnergy);
    SharesOnlyAsIntendedConcat(pvAndSolar, H1GridAndYieldEnergy);

    AC1Sharing();

    var a, b, c, d, e := H1Ac1BatteryAndGridPower, H1Ac1MetersAndLoad, H1Ac1TemperaturesAndBattery,
                         H1Ac1Bms, H1Ac1Settings;
    BatteryAndGridPowerSharing();
    MetersAndLoadSharing();
    TemperaturesAndBatterySharing();
    BmsSharing();
    SettingsSharing();
    BatteryAndGridPowerBesideMetersAndLoad();
    BatteryAndGridPowerBesideTemperaturesAndBattery();
    BatteryAndGridPowerBesideBms();
    BatteryAndGridPowerBesideSettings();
    MetersAndLoadBesideTemperaturesAndBattery();
    MetersAndLoadBesideBms();
    MetersAndLoadBesideSettings();
    TemperaturesAndBatteryBesideBms();
    TemperaturesAndBatteryBesideSettings();
    BmsBesideSettings();
    // Grow the table one run at a time: ab, abc, abcd, abcde.
    SharesOnlyAsIntendedConcat(a, b);
    SharesOnlyAsIntendedAcrossConcatLeft(a, b, c);
    SharesOnlyAsIntendedConcat(a + b, c);
    SharesOnlyAsIntendedAcrossConcatLeft(a, b, d);
    SharesOnlyAsIntendedAcrossConcatLeft(a + b, c, d);
    SharesOnlyAsIntendedConcat(a + b + c, d);
    SharesOnlyAsIntendedAcrossConcatLeft(a, b, e);
    SharesOnlyAsIntendedAcrossConcatLeft(a + b, c, e);
    SharesOnlyAsIntendedAcrossConcatLeft(a + b + c, d, e);
    SharesOnlyAsIntendedConcat(a + b + c + d, e);
    assert H1_AC1 == a + b + c + d + e;
    forall i, j | 0 <= i < j < |H1_AC1| && H1_AC1[i].key == H1_AC1[j].key
      ensures BackCompatPair(H1_AC1[i], H1_AC1[j])
    {
      assert SharingIntended(H1_AC1[i], H1_AC1[j]);
    }
  }

  /** Every declared `Range(lo, hi)` has `lo <= hi`. */
  lemma H1RangesWellFormed()
    ensures forall i :: 0 <= i < |H1| ==> RulesWellFormed(H1[i])
    ensures forall i :: 0 <= i < |AC1| ==> Rules(AC1[i]) == []
  {
  }

  lemma H1Ac1RangesWellFormed()
    ensures forall i :: 0 <= i < |H1_AC1| ==> RulesWellFormed(H1_AC1[i])
  {
  }

  /** The registers whose readings are reported to overflow. */
  const OverflowReported: set<string> :=
    {"grid_consumption_energy_total", "total_yield_total", "bms_watthours_total"}

  /** A sensor declares no validation exactly when its register is reported
      to overflow. */
  lemma H1OverflowingSensorsUnvalidated()
    ensures forall i :: 0 <= i < |H1| && H1[i].Sensor? ==>
      (H1[i].validate == [] <==> H1[i].key in OverflowReported)
  {
  }

  lemma H1Ac1OverflowingSensorsUnvalidated()
    ensures forall i :: 0 <= i < |H1_AC1| && H1_AC1[i].Sensor? ==>
      (H1_AC1[i].validate == [] <==> H1_AC1[i].key in OverflowReported)
  {
  }

  /** `t` has a register-backed sensor with this key. */
  ghost predicate DefinesSensor(t: seq<Description>, key: string)
  {
    exists j :: 0 <= j < |t| && t[j].Sensor? && t[j].key == key
  }

  /** H1's integration sensors integrate H1 sensors. */
  lemma H1IntegrationSourcesDefined()
    ensures forall i :: 0 <= i < |H1| && H1[i].IntegrationSensor? ==> DefinesSensor(H1, H1[i].sourceEntity)
  {
    assert H1[3].sourceEntity == H1[2].key;
    assert H1[7].sourceEntity == H1[6].key;
  }

  /** AC1 holds only integration sensors, each integrating a split sensor of
      `H1_AC1`. */
  lemma AC1IntegrationSourcesDefined()
    ensures forall i :: 0 <= i < |AC1| ==> AC1[i].IntegrationSensor? && DefinesSensor(H1_AC1, AC1[i].sourceEntity)
  {
    assert AC1[0].sourceEntity == H1_AC1[10].key;
    assert AC1[1].sourceEntity == H1_AC1[9].key;
    assert AC1[2].sourceEntity == H1_AC1[3].key;
    assert AC1[3].sourceEntity == H1_AC1[2].key;
  }

  lemma H1Ac1IntegrationSourcesDefined()
    ensures forall i :: 0 <= i < |H1_AC1| && H1_AC1[i].IntegrationSensor? ==>
      DefinesSensor(H1_AC1, H1_AC1[i].sourceEntity)
  {
    assert H1_AC1[13].sourceEntity == H1_AC1[12].key;
  }

  /** `t` has a sensor reading `address` at `scale` through `p`. */
  ghost predicate ReadsThrough(t: seq<Description>, address: Address, scale: real, p: PostProcess)
  {
    exists j :: 0 <= j < |t| && t[j].Sensor? && t[j].address == address && t[j].scale == scale
                && t[j].postProcess == p
  }

  /** Only registers 11008 and 11021 are post-processed, both at scale 0.001,
      and each is split into both halves; 11021 is also read unsplit. */
  lemma SplitRegisters()
    ensures forall i :: 0 <= i < |H1| && H1[i].Sensor? ==> H1[i].postProcess == NoPostProcess
    ensures forall i :: 0 <= i < |H1_AC1| && H1_AC1[i].Sensor? && H1_AC1[i].postProcess != NoPostProcess ==>
      (H1_AC1[i].address == 11008 || H1_AC1[i].address == 11021) && H1_AC1[i].scale == 0.001
    ensures ReadsThrough(H1_AC1, 11008, 0.001, PositivePart) && ReadsThrough(H1_AC1, 11008, 0.001, NegativeMagnitude)
    ensures ReadsThrough(H1_AC1, 11021, 0.001, PositivePart) && ReadsThrough(H1_AC1, 11021, 0.001, NegativeMagnitude)
    ensures ReadsThrough(H1_AC1, 11021, 0.001, NoPostProcess)
  {
    assert H1_AC1[2].postProcess == PositivePart;
    assert H1_AC1[3].postProcess == NegativeMagnitude;
    assert H1_AC1[8].postProcess == NoPostProcess;
    assert H1_AC1[9].postProcess == PositivePart;
    assert H1_AC1[10].postProcess == NegativeMagnitude;
  }

  /** Every number declares the bounds 10 to 100 with step 1. */
  lemma NumberBounds()
    ensures forall i :: 0 <= i < |H1_AC1| && H1_AC1[i].Number? ==>
      && H1_AC1[i].nativeMinValue == 10.0 <= H1_AC1[i].nativeMaxValue == 100.0
      && H1_AC1[i].nativeStep == 1.0 && H1_AC1[i].mode == Box
  {
  }

  /** Every number directly follows the back-compat sensor it replaced. */
  lemma NumbersFollowTheirSensors()
    ensures forall i :: 0 <= i < |H1_AC1| && H1_AC1[i].Number? ==> 0 < i && BackCompatPair(H1_AC1[i - 1], H1_AC1[i])
  {
  }

  /** Reading -500 from register 11008: nothing is discharging and 0.5 kW is
      charging; the two halves recombine into the reading for any raw value. */
  lemma BatteryPowerSplit(raw: int)
    ensures H1_AC1[2].key == "battery_discharge" && H1_AC1[3].key == "battery_charge"
    ensures Decode(H1_AC1[2], -500) == 0.0 && Decode(H1_AC1[3], -500) == 0.5
    ensures Decode(H1_AC1[2], raw) - Decode(H1_AC1[3], raw) == raw as real * 0.001
  {
    SplitSensorsRecombine(H1_AC1[2], H1_AC1[3], raw);
  }

  /** Feed-in minus grid consumption is the unsplit grid CT reading. */
  lemma GridPowerSplit(raw: int)
    ensures H1_AC1[8].key == "grid_ct" && H1_AC1[9].key == "feed_in" && H1_AC1[10].key == "grid_consumption"
    ensures Decode(H1_AC1[9], raw) - Decode(H1_AC1[10], raw) == Decode(H1_AC1[8], raw)
    ensures Decode(H1_AC1[9], raw) == 0.0 || Decode(H1_AC1[10], raw) == 0.0
  {
    SplitSensorsRecombine(H1_AC1[9], H1_AC1[10], raw);
  }
}
