/**
 What `atualizarResultados` writes into the panel of one collection service (the
 selective and the household collection each get one): frequency, shift and time, read
 from the properties of the area found for the address. The DOM writes are left out; the
 descriptor is the text the three fields receive.
 */
module Descriptors {
  import opened Wrappers
  import opened Text
  import opened Fields
  import opened Schedule
  import opened Formatters
  import ZoneIndex

  /** `info.FREQUENCIA || info.frequencia` */
  const FrequencyKeys: seq<String> := ["FREQUENCIA", "frequencia"]

  /** `info.TURNO || info.turno` */
  const ShiftKeys: seq<String> := ["TURNO", "turno"]

  /** `info.Horario || info.horario || info.HORARIO` */
  const TimeKeys: seq<String> := ["Horario", "horario", "HORARIO"]

  /** Every key the panel reads. */
  const ReadKeys: seq<String> := FrequencyKeys + ShiftKeys + TimeKeys

  /** The frequency shown when no area was found for the service. */
  const NotAvailable: String := "Não disponível"

  /** The texts of the frequency, shift and time fields of one panel. */
  datatype Descriptor = Descriptor(frequency: String, shift: String, time: String)

  /** `TURNO || turno || extrairTurno(freq)`: a shift field wins; otherwise the shift is
      read from the frequency text. */
  function ShiftOf(m: map<String, String>): (r: Option<String>)
    ensures !NoneTruthy(m, ShiftKeys) ==> r == FirstPresent(m, ShiftKeys)
    ensures NoneTruthy(m, ShiftKeys) ==> r == ExtrairTurno(FirstPresent(m, FrequencyKeys))
  {
    match FirstPresent(m, ShiftKeys)
    case Some(t) => Some(t)
    case None => ExtrairTurno(FirstPresent(m, FrequencyKeys))
  }

  /** One panel of `atualizarResultados`: without properties the frequency reads
      `Não disponível` and the other two fields `-`; with properties every field shows
      its formatter's output, which is `-` for a field none of whose keys is truthy. */
  function Describe(info: Option<ZoneIndex.Properties>): (d: Descriptor)
    ensures info.None? ==> d == Descriptor(NotAvailable, "-", "-")
    ensures info.Some? ==> d.frequency == "-" || Clean(d.frequency)
    ensures info.Some? && NoneTruthy(info.value, FrequencyKeys) ==> d.frequency == "-"
    ensures info.Some? && NoneTruthy(info.value, TimeKeys) ==> d.time == "-"
    ensures info.Some? ==>
              (NoneTruthy(info.value, ShiftKeys) && NoneTruthy(info.value, FrequencyKeys) ==> d.shift == "-")
  {
    match info
    case None => Descriptor(NotAvailable, "-", "-")
    case Some(m) =>
      var freq := FirstPresent(m, FrequencyKeys);
      Descriptor(FormatarFrequencia(freq), FormatarTurno(ShiftOf(m)), FormatarHorario(FirstPresent(m, TimeKeys)))
  }

  // ---------------------------------------------------------------------------
  // What the panel reads
  // ---------------------------------------------------------------------------

  /** The panel reads the seven keys of its chains and nothing else. */
  lemma DescribeReadsOnlyItsKeys(m1: map<String, String>, m2: map<String, String>)
    requires SameOn(m1, m2, ReadKeys)
    ensures Describe(Some(m1)) == Describe(Some(m2))
  {
    SameOnParts(m1, m2, FrequencyKeys + ShiftKeys, TimeKeys);
    SameOnParts(m1, m2, FrequencyKeys, ShiftKeys);
    FirstPresentAgree(m1, m2, FrequencyKeys);
    FirstPresentAgree(m1, m2, ShiftKeys);
    FirstPresentAgree(m1, m2, TimeKeys);
  }

  /** A truthy shift field decides the shift: the frequency text is then not consulted. */
  lemma ShiftFieldWins(m1: map<String, String>, m2: map<String, String>)
    requires !NoneTruthy(m1, ShiftKeys) && SameOn(m1, m2, ShiftKeys)
    ensures Describe(Some(m1)).shift == Describe(Some(m2)).shift
    ensures Describe(Some(m1)).shift == FormatarTurno(FirstPresent(m1, ShiftKeys))
  {
    FirstPresentAgree(m1, m2, ShiftKeys);
  }

  /** Without a shift field, the shift shown is `-` exactly when the frequency is missing
      or names no shift, and otherwise the label of the leftmost shift it names. */
  lemma ShiftFromFrequencyField(m: map<String, String>)
    requires NoneTruthy(m, ShiftKeys)
    ensures var freq := FirstPresent(m, FrequencyKeys);
            Describe(Some(m)).shift == "-" <==> freq.None? || NoShiftIn(freq.value)
    ensures var t := ExtrairTurno(FirstPresent(m, FrequencyKeys));
            t.Some? ==> exists k :: 0 <= k < |ShiftNames| && t.value == ShiftNames[k]
                                    && Describe(Some(m)).shift == ShiftLabels[k]
  {
    ShiftFromFrequency(FirstPresent(m, FrequencyKeys));
  }

  /** `FREQUENCIA` comes first: when it is truthy, `frequencia` is not read. */
  lemma FrequencyUpperKeyFirst(m: map<String, String>, v: String)
    requires Truthy(m, "FREQUENCIA")
    ensures Describe(Some(m["frequencia" := v])) == Describe(Some(m))
  {
    LaterKeyShadowed(m, FrequencyKeys, 0, 1, v);
    UpdateElsewhere(m, ShiftKeys, "frequencia", v);
    UpdateElsewhere(m, TimeKeys, "frequencia", v);
  }

  /** `TURNO` comes first: when it is truthy, `turno` is not read. */
  lemma ShiftUpperKeyFirst(m: map<String, String>, v: String)
    requires Truthy(m, "TURNO")
    ensures Describe(Some(m["turno" := v])) == Describe(Some(m))
  {
    LaterKeyShadowed(m, ShiftKeys, 0, 1, v);
    UpdateElsewhere(m, FrequencyKeys, "turno", v);
    UpdateElsewhere(m, TimeKeys, "turno", v);
  }

  /** `Horario` comes first: when it is truthy, neither `horario` nor `HORARIO` is read. */
  lemma TimeKeyFirst(m: map<String, String>, v: String)
    requires Truthy(m, "Horario")
    ensures Describe(Some(m["horario" := v])) == Describe(Some(m))
    ensures Describe(Some(m["HORARIO" := v])) == Describe(Some(m))
  {
    LaterKeyShadowed(m, TimeKeys, 0, 1, v);
    LaterKeyShadowed(m, TimeKeys, 0, 2, v);
    UpdateElsewhere(m, FrequencyKeys, "horario", v);
    UpdateElsewhere(m, ShiftKeys, "horario", v);
    UpdateElsewhere(m, FrequencyKeys, "HORARIO", v);
    UpdateElsewhere(m, ShiftKeys, "HORARIO", v);
  }

  /** The time chain tries `Horario`, then `horario`, then `HORARIO`. */
  lemma TimeChainOrder(m: map<String, String>)
    ensures var t := FirstPresent(m, TimeKeys);
            && (Truthy(m, "Horario") ==> t == Some(m["Horario"]))
            && (!Truthy(m, "Horario") && Truthy(m, "horario") ==> t == Some(m["horario"]))
            && (!Truthy(m, "Horario") && !Truthy(m, "horario") && Truthy(m, "HORARIO") ==> t == Some(m["HORARIO"]))
            && (!Truthy(m, "Horario") && !Truthy(m, "horario") && !Truthy(m, "HORARIO") ==> t.None?)
  {
    var rest := TimeKeys[1..];
    assert rest == ["horario", "HORARIO"];
    assert rest[1..] == ["HORARIO"];
    assert FirstPresent(m, rest[1..]) == (if Truthy(m, "HORARIO") then Some(m["HORARIO"]) else None);
  }

  /** The frequency chain tries `FREQUENCIA`, then `frequencia`. */
  lemma FrequencyChainOrder(m: map<String, String>)
    ensures var f := FirstPresent(m, FrequencyKeys);
            && (Truthy(m, "FREQUENCIA") ==> f == Some(m["FREQUENCIA"]))
            && (!Truthy(m, "FREQUENCIA") && Truthy(m, "frequencia") ==> f == Some(m["frequencia"]))
            && (!Truthy(m, "FREQUENCIA") && !Truthy(m, "frequencia") ==> f.None?)
  {
    assert FrequencyKeys[1..] == ["frequencia"];
    assert FrequencyKeys[1..][1..] == [];
  }

  /** The time shown is `formatarHorario` of the first truthy key among `Horario`,
      `horario` and `HORARIO`, in that order, and `-` when none is truthy. */
  lemma TimeFromKeys(m: map<String, String>)
    ensures var time := Describe(Some(m)).time;
            && (Truthy(m, "Horario") ==> time == FormatarHorario(Some(m["Horario"])))
            && (!Truthy(m, "Horario") && Truthy(m, "horario") ==> time == FormatarHorario(Some(m["horario"])))
            && (!Truthy(m, "Horario") && !Truthy(m, "horario") && Truthy(m, "HORARIO") ==>
                  time == FormatarHorario(Some(m["HORARIO"])))
            && (!Truthy(m, "Horario") && !Truthy(m, "horario") && !Truthy(m, "HORARIO") ==> time == "-")
  {
    TimeChainOrder(m);
  }

  /** The frequency shown is `formatarFrequencia` of `FREQUENCIA` when it is truthy,
      else of `frequencia`, and `-` when neither is. */
  lemma FrequencyFromKeys(m: map<String, String>)
    ensures var frequency := Describe(Some(m)).frequency;
            && (Truthy(m, "FREQUENCIA") ==> frequency == FormatarFrequencia(Some(m["FREQUENCIA"])))
            && (!Truthy(m, "FREQUENCIA") && Truthy(m, "frequencia") ==>
                  frequency == FormatarFrequencia(Some(m["frequencia"])))
            && (!Truthy(m, "FREQUENCIA") && !Truthy(m, "frequencia") ==> frequency == "-")
  {
    FrequencyChainOrder(m);
  }

  /** The shift and time fields show `-` exactly when their value is missing or is `-`
      itself. */
  lemma DashFields(m: map<String, String>)
    ensures Describe(Some(m)).time == "-" <==>
              NoneTruthy(m, TimeKeys) || FirstPresent(m, TimeKeys) == Some("-")
    ensures Describe(Some(m)).shift == "-" <==> ShiftOf(m).None? || ShiftOf(m) == Some("-")
  {
    FormatarHorarioDash(FirstPresent(m, TimeKeys));
    FormatarTurnoDash(ShiftOf(m));
  }

  /** An area whose only property is a non-empty `FREQUENCIA` shows that frequency
      formatted, the label of the shift read from it, and no time. */
  lemma FrequencyOnly(m: map<String, String>, v: String)
    requires v != [] && m == map["FREQUENCIA" := v]
    ensures Describe(Some(m)) == Descriptor(FormatarFrequencia(Some(v)), FormatarTurno(ExtrairTurno(Some(v))), "-")
  {
    assert Truthy(m, FrequencyKeys[0]);
    assert NoneTruthy(m, ShiftKeys);
    assert NoneTruthy(m, TimeKeys);
  }
}
