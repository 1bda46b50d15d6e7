/**
 One area from end to end, as `processarLocalizacao` runs it for one collection service:
 the area is looked up with `encontrarAreaNoGeoJSON` and its properties are turned into
 the panel of `atualizarResultados`. The area is a small square in Ribeirão Preto whose
 frequency field reads `TERÇA-FEIRA NOTURNO`.
 */
module Scenario {
  import opened Wrappers
  import opened Text
  import opened Schedule
  import opened DayNames
  import opened DayLists
  import opened FrequencyExamples
  import opened Formatters
  import opened Fields
  import opened Descriptors
  import opened Containment
  import opened ZoneIndex

  /** The boundary of the square, closed by repeating its first corner. */
  const Square: Ring := [(-47.82, -21.18), (-47.80, -21.18), (-47.80, -21.17), (-47.82, -21.17), (-47.82, -21.18)]

  /** A dataset holding the square alone, with the given properties, if any. */
  function Zone(props: Option<Properties>): Dataset {
    Dataset(Some([Feature(Some(Polygon([Square])), props)]))
  }

  // ---------------------------------------------------------------------------
  // The lookup
  // ---------------------------------------------------------------------------

  /** The ray from the centre of the square crosses its right side and no other edge. */
  lemma CentreInside()
    ensures Inside((-47.81, -21.175), Square)
  {
    var es := Edges(Square);
    var p := (-47.81, -21.175);
    assert Crosses(p, es[2].0, es[2].1);
    assert !Crosses(p, es[0].0, es[0].1);
    assert !Crosses(p, es[1].0, es[1].1);
    assert !Crosses(p, es[3].0, es[3].1);
    assert !Crosses(p, es[4].0, es[4].1);
    assert es[..5] == es;
    assert es[..5][..4] == es[..4] && es[..4][..3] == es[..3] && es[..3][..2] == es[..2];
    assert es[..2][..1] == es[..1] && es[..1][..0] == [];
    assert CrossCount(p, es[..1]) == 0;
    assert CrossCount(p, es[..2]) == 0;
    assert CrossCount(p, es[..3]) == 1;
    assert CrossCount(p, es[..4]) == 1;
  }

  /** A point south of every corner is outside the square. */
  lemma SouthOutside()
    ensures !Inside((-47.81, -21.20), Square)
  {
    BelowAllOutside((-47.81, -21.20), Square);
  }

  /** The centre of the square finds the square's properties. */
  lemma CentreFindsZone(props: Option<Properties>)
    ensures EncontrarArea(-21.175, -47.81, Some(Zone(props))) == props
  {
    CentreInside();
    assert PontoEmPoligono((-47.81, -21.175), Some(Polygon([Square])));
  }

  /** A point south of the square finds no area. */
  lemma SouthFindsNothing(props: Option<Properties>)
    ensures EncontrarArea(-21.20, -47.81, Some(Zone(props))) == None
  {
    SouthOutside();
    assert !PontoEmPoligono((-47.81, -21.20), Some(Polygon([Square])));
  }

  // ---------------------------------------------------------------------------
  // The frequency text
  // ---------------------------------------------------------------------------

  lemma TuesdayValue(v: String, t: String)
    requires v == "TERÇA-FEIRA NOTURNO" && t == "TERÇA-FEIRA"
    ensures v == Join([t], "/") + " " + "NOTURNO"
  {
  }

  /** `TERÇA-FEIRA NOTURNO` is shown as `Ter`. */
  lemma TuesdayNightFrequency(v: String)
    requires v == "TERÇA-FEIRA NOTURNO"
    ensures FormatarFrequencia(Some(v)) == "Ter"
  {
    var t := "TERÇA-FEIRA";
    StartsWithSelf(t, [], true);
    assert t + [] == t;
    FullNameIsDayWord(t, 1);
    TuesdayValue(v, t);
    assert Join([Abbreviations[1]], ", ") == "Ter";
    FormatsAs(v, [t], " ", "NOTURNO", "Ter");
  }

  /** `NOTURNO` is matched by the second shift name, whole. */
  lemma NightMatch(t: String)
    requires t == "NOTURNO"
    ensures MatchLen(ShiftPattern, t) == Some(7)
  {
    MismatchAt(t, ShiftNames[0], true, 0);
    StartsWithSelf(t, [], true);
    assert t + [] == t;
    MatchLenAt(ShiftPattern, t, 1);
  }

  /** No shift name begins in the weekday part of the text or at the space after it. */
  lemma NoShiftInWeekday(v: String)
    requires v == "TERÇA-FEIRA NOTURNO"
    ensures forall j :: 0 <= j < 12 ==> MatchLen(ShiftPattern, v[j..]).None?
  {
    forall j | 0 <= j < 12
      ensures MatchLen(ShiftPattern, v[j..]).None?
    {
      assert v[j..][0] == v[j];
      ShiftNeedsLead(v[j..]);
    }
  }

  /** The shift read from `TERÇA-FEIRA NOTURNO` is `NOTURNO`. */
  lemma TuesdayNightShift(v: String)
    requires v == "TERÇA-FEIRA NOTURNO"
    ensures ExtrairTurno(Some(v)) == Some("NOTURNO")
  {
    NoShiftInWeekday(v);
    assert v[12..] == "NOTURNO";
    NightMatch(v[12..]);
    LeftmostShift(v, 12, "NOTURNO");
  }

  // ---------------------------------------------------------------------------
  // The panel
  // ---------------------------------------------------------------------------

  /** The night shift is labelled `Noturno`. */
  lemma NightLabel(w: String)
    requires w == "NOTURNO"
    ensures FormatarTurno(Some(w)) == "Noturno"
  {
    ShiftNameIsUpper(w);
    assert w == ShiftNames[1];
  }

  /** An area whose only property is a frequency text shown as `Ter` that names the
      night shift gives the panel `Ter`, `Noturno`, `-`. */
  lemma NightPanel(m: Properties, v: String)
    requires v != [] && m == map["FREQUENCIA" := v]
    requires FormatarFrequencia(Some(v)) == "Ter" && ExtrairTurno(Some(v)) == Some("NOTURNO")
    ensures Describe(Some(m)) == Descriptor("Ter", "Noturno", "-")
  {
    FrequencyOnly(m, v);
    NightLabel(ExtrairTurno(Some(v)).value);
  }

  /** Properties holding only `FREQUENCIA: TERÇA-FEIRA NOTURNO` give the panel `Ter`,
      `Noturno`, `-`: the shift comes from the frequency text and there is no time. */
  lemma TuesdayNightPanel(m: Properties)
    requires m == map["FREQUENCIA" := "TERÇA-FEIRA NOTURNO"]
    ensures Describe(Some(m)) == Descriptor("Ter", "Noturno", "-")
  {
    var v := m["FREQUENCIA"];
    TuesdayNightFrequency(v);
    TuesdayNightShift(v);
    NightPanel(m, v);
  }

  /** Inside the square the panel reads `Ter`, `Noturno`, `-`; south of it, where no area
      is found, it reads `Não disponível`, `-`, `-`. */
  lemma SquareScenario(m: Properties)
    requires m == map["FREQUENCIA" := "TERÇA-FEIRA NOTURNO"]
    ensures Describe(EncontrarArea(-21.175, -47.81, Some(Zone(Some(m))))) == Descriptor("Ter", "Noturno", "-")
    ensures Describe(EncontrarArea(-21.20, -47.81, Some(Zone(Some(m))))) == Descriptor(NotAvailable, "-", "-")
  {
    CentreFindsZone(Some(m));
    SouthFindsNothing(Some(m));
    TuesdayNightPanel(m);
  }

  /** A square whose properties are `null` is still found, and the panel then reads
      `Não disponível`, `-`, `-`, as if no area had been found. */
  lemma NullPropertiesScenario()
    ensures Describe(EncontrarArea(-21.175, -47.81, Some(Zone(None)))) == Descriptor(NotAvailable, "-", "-")
  {
    CentreFindsZone(None);
  }
}
