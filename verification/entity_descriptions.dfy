/** The declarative description records that the register tables are made
    of: sensors, integration sensors, selects and numbers, each bound to a
    register address, a scale, declared validation bounds and an optional
    post-process transform. The transforms are a closed set of tags instead
    of closures. */
module EntityDescriptions {
  import opened Wrappers

  type Address = nat

  /** The validators a description declares. Only the declared bounds are
      recorded; how a validator judges a reading is not part of this model. */
  datatype Validator = Range(lo: real, hi: real) | Min(lo: real)

  /** The `post_process` transforms that occur in the tables. */
  datatype PostProcess =
    | NoPostProcess
      /** `lambda v: v if v > 0 else 0` */
    | PositivePart
      /** `lambda v: abs(v) if v < 0 else 0` */
    | NegativeMagnitude

  datatype NumberMode = Auto | Box | Slider

  datatype Description =
    | Sensor(key: string, address: Address, scale: real, postProcess: PostProcess, validate: seq<Validator>)
      /** Derived from another sensor of the same device; reads no register. */
    | IntegrationSensor(key: string, sourceEntity: string)
    | Select(key: string, address: Address, optionsMap: map<int, string>)
    | Number(key: string, address: Address, mode: NumberMode, nativeMinValue: real,
             nativeMaxValue: real, nativeStep: real, validate: seq<Validator>)

  /** The register a description reads, if any. */
  function RegisterOf(d: Description): (a: Option<Address>)
    ensures a.None? <==> d.IntegrationSensor?
  {
    match d
    case Sensor(_, address, _, _, _) => Some(address)
    case Select(_, address, _) => Some(address)
    case Number(_, address, _, _, _, _, _) => Some(address)
    case IntegrationSensor(_, _) => None
  }

  /** The validation rules a description declares (none for selects and
      integration sensors). */
  function Rules(d: Description): seq<Validator>
  {
    match d
    case Sensor(_, _, _, _, validate) => validate
    case Number(_, _, _, _, _, _, validate) => validate
    case _ => []
  }

  /** A declared bound describes a non-empty interval. */
  predicate WellFormed(v: Validator)
  {
    match v
    case Range(lo, hi) => lo <= hi
    case Min(_) => true
  }

  predicate RulesWellFormed(d: Description)
  {
    forall k :: 0 <= k < |Rules(d)| ==> WellFormed(Rules(d)[k])
  }

  /** Applies a post-process transform to a scaled reading. */
  function ApplyPostProcess(p: PostProcess, v: real): (r: real)
    ensures p == NoPostProcess ==> r == v
    ensures p != NoPostProcess ==> 0.0 <= r
    ensures p == PositivePart ==> (r != 0.0 <==> v > 0.0) && (v > 0.0 ==> r == v)
    ensures p == NegativeMagnitude ==> (r != 0.0 <==> v < 0.0) && (v < 0.0 ==> r == -v)
  {
    match p
    case NoPostProcess => v
    case PositivePart => if v > 0.0 then v else 0.0
    case NegativeMagnitude => if v < 0.0 then -v else 0.0
  }

  /** Splitting a signed reading into its positive part and the magnitude
      of its negative part loses nothing: at most one half is non-zero, their
      difference is the reading and their sum its magnitude. */
  lemma SplitIsLossless(v: real)
    ensures ApplyPostProcess(PositivePart, v) == 0.0 || ApplyPostProcess(NegativeMagnitude, v) == 0.0
    ensures ApplyPostProcess(PositivePart, v) - ApplyPostProcess(NegativeMagnitude, v) == v
    ensures ApplyPostProcess(PositivePart, v) + ApplyPostProcess(NegativeMagnitude, v)
            == (if v < 0.0 then -v else v)
  {
  }

  /** The other direction: any pair of non-negative halves of which at most
      one is non-zero is what splitting their difference yields. */
  lemma SplitOfDifference(positive: real, negative: real)
    requires 0.0 <= positive && 0.0 <= negative
    requires positive == 0.0 || negative == 0.0
    ensures ApplyPostProcess(PositivePart, positive - negative) == positive
    ensures ApplyPostProcess(NegativeMagnitude, positive - negative) == negative
  {
  }

  /** With a positive scale it does not matter whether a transform runs
      before or after scaling the raw register value. */
  lemma PostProcessCommutesWithScale(p: PostProcess, raw: int, scale: real)
    requires 0.0 < scale
    ensures ApplyPostProcess(p, raw as real * scale) == ApplyPostProcess(p, raw as real) * scale
  {
    var v := raw as real;
    if v > 0.0 {
      assert v * scale > 0.0;
    } else if v < 0.0 {
      assert v * scale < 0.0;
    } else {
      assert v * scale == 0.0;
    }
  }

  /** The semantic value of a sensor for a raw register value: scaled, then
      post-processed. */
  function Decode(d: Description, raw: int): (v: real)
    requires d.Sensor?
    ensures d.postProcess == NoPostProcess ==> v == raw as real * d.scale
    ensures d.postProcess != NoPostProcess ==> 0.0 <= v
  {
    ApplyPostProcess(d.postProcess, raw as real * d.scale)
  }

  /** Two sensors that read one register and differ only in how they
      post-process it recombine into the unsplit reading. */
  lemma SplitSensorsRecombine(discharge: Description, charge: Description, raw: int)
    requires discharge.Sensor? && charge.Sensor?
    requires discharge.scale == charge.scale
    requires discharge.postProcess == PositivePart && charge.postProcess == NegativeMagnitude
    ensures Decode(discharge, raw) - Decode(charge, raw) == raw as real * discharge.scale
    ensures Decode(discharge, raw) == 0.0 || Decode(charge, raw) == 0.0
  {
    SplitIsLossless(raw as real * discharge.scale);
  }

  // Relations between two descriptions of one table, the first listed
  // before the second.

  /** A sensor kept for backward compatibility next to the number that
      replaced it: same key, same register. */
  predicate BackCompatPair(x: Description, y: Description)
  {
    x.Sensor? && y.Number? && x.key == y.key && x.address == y.address
  }

  /** Two sensors that are views of one signed register: same register, same
      scale, different post-process. */
  predicate SplitViews(x: Description, y: Description)
  {
    x.Sensor? && y.Sensor? && x.address == y.address && x.scale == y.scale
    && x.postProcess != y.postProcess
  }

  /** A repeated key is only ever a back-compat pair. */
  predicate KeyClashIntended(x: Description, y: Description)
  {
    x.key == y.key ==> BackCompatPair(x, y)
  }

  /** A repeated register is only ever split views or a back-compat pair. */
  predicate RegisterShareIntended(x: Description, y: Description)
  {
    RegisterOf(x).Some? && RegisterOf(x) == RegisterOf(y) ==> SplitViews(x, y) || BackCompatPair(x, y)
  }

  /** Both kinds of sharing are intended. */
  predicate SharingIntended(x: Description, y: Description)
  {
    KeyClashIntended(x, y) && RegisterShareIntended(x, y)
  }

  // Facts about whole runs of a table. A table is a concatenation of runs;
  // the lemmas below assemble facts about the table from facts about its runs.

  /** Every pair of entries of `t`, in table order, shares only as intended. */
  ghost predicate SharesOnlyAsIntended(t: seq<Description>)
  {
    forall i, j :: 0 <= i < j < |t| ==> SharingIntended(t[i], t[j])
  }

  /** Every entry of `a` paired with every later entry of `b` shares only
      as intended. */
  ghost predicate SharesOnlyAsIntendedAcross(a: seq<Description>, b: seq<Description>)
  {
    forall i, j :: 0 <= i < |a| && 0 <= j < |b| ==> SharingIntended(a[i], b[j])
  }

  lemma SharesOnlyAsIntendedConcat(a: seq<Description>, b: seq<Description>)
    requires SharesOnlyAsIntended(a) && SharesOnlyAsIntended(b) && SharesOnlyAsIntendedAcross(a, b)
    ensures SharesOnlyAsIntended(a + b)
  {
    var t := a + b;
    forall i, j | 0 <= i < j < |t|
      ensures SharingIntended(t[i], t[j])
    {
      if j < |a| {
        assert SharingIntended(a[i], a[j]);
      } else if i < |a| {
        assert SharingIntended(a[i], b[j - |a|]);
      } else {
        assert SharingIntended(b[i - |a|], b[j - |a|]);
      }
    }
  }

  /** The same, for a run cut in two at `k`. */
  lemma SharesOnlyAsIntendedSplit(t: seq<Description>, k: nat)
    requires k <= |t|
    requires SharesOnlyAsIntended(t[..k]) && SharesOnlyAsIntended(t[k..])
    requires SharesOnlyAsIntendedAcross(t[..k], t[k..])
    ensures SharesOnlyAsIntended(t)
  {
    SharesOnlyAsIntendedConcat(t[..k], t[k..]);
    assert t[..k] + t[k..] == t;
  }

  lemma SharesOnlyAsIntendedAcrossConcatLeft(a1: seq<Description>, a2: seq<Description>, b: seq<Description>)
    requires SharesOnlyAsIntendedAcross(a1, b) && SharesOnlyAsIntendedAcross(a2, b)
    ensures SharesOnlyAsIntendedAcross(a1 + a2, b)
  {
    var a := a1 + a2;
    forall i, j | 0 <= i < |a| && 0 <= j < |b|
      ensures SharingIntended(a[i], b[j])
    {
      if i < |a1| {
        assert SharingIntended(a1[i], b[j]);
      } else {
        assert SharingIntended(a2[i - |a1|], b[j]);
      }
    }
  }
}
