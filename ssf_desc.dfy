/** The file-name description of the SSF scorer (scorer/ssf.py,
    make_description): 'ssf', the mode, the entity part, the slot type,
    the averaging and the cutoff step. */
module SsfDescription {
  import opened Wrappers
  import opened Text
  import opened SsfTruth

  /** The command-line choices the description reads; `slotType` is ""
      when --slot-type is not given (None and "" both test false). */
  datatype SsfArgs = SsfArgs(
    rejectTwitter: bool, rejectWikipedia: bool, micro: bool, slotType: string, cutoffStepSize: int)

  /** The assertion 'cannot score with no entities', and an attribute
      the argument namespace does not have. */
  datatype DescError = NoEntities | MissingAttribute(name: string)

  /** An integer attribute of the namespace: the parser stores
      --cutoff-step-size under the dest `cutoff_step_size` and holds no
      other integer. */
  function IntAttr(a: SsfArgs, name: string): Option<int> {
    if name == "cutoff_step_size" then Some(a.cutoffStepSize) else None
  }

  function EntityPart(a: SsfArgs): (r: Option<string>)
    ensures r.None? <==> a.rejectTwitter && a.rejectWikipedia
  {
    if a.rejectWikipedia && !a.rejectTwitter then Some("-twitter-only")
    else if a.rejectTwitter && !a.rejectWikipedia then Some("-wikipedia-only")
    else if a.rejectWikipedia && a.rejectTwitter then None
    else Some("-all-entities")
  }

  function SlotPart(slotType: string): string {
    if slotType != "" then "-" + slotType else "-all"
  }

  function AvgPart(micro: bool): string {
    if micro then "-microavg" else "-macroavg"
  }

  /** What follows 'ssf-' and the mode, up to the cutoff step. */
  function Middle(entities: string, a: SsfArgs): string {
    entities + SlotPart(a.slotType) + AvgPart(a.micro) + "-cutoff-step-size-"
  }

  /** make_description as written: the step is read from the attribute
      `cutoff_step`. */
  function DescriptionAsWritten(a: SsfArgs, m: Mode): Result<string, DescError> {
    match EntityPart(a)
    case None => Failure(NoEntities)
    case Some(entities) =>
      match IntAttr(a, "cutoff_step")
      case None => Failure(MissingAttribute("cutoff_step"))
      case Some(step) => Success("ssf-" + ModeName(m) + (Middle(entities, a) + IntToString(step)))
  }

  /** As written, no choice of arguments yields a description: the
      namespace holds the step as `cutoff_step_size`, so the lookup of
      `cutoff_step` fails whenever the entity assertion passes. */
  lemma AsWrittenFails(a: SsfArgs, m: Mode)
    ensures DescriptionAsWritten(a, m) ==
      if a.rejectTwitter && a.rejectWikipedia then Failure(NoEntities) else Failure(MissingAttribute("cutoff_step"))
  {
  }

  /** The description as evidently intended, with the step the scorer
      was given. */
  function Description(a: SsfArgs, m: Mode): (r: Result<string, DescError>)
    ensures r.Failure? <==> a.rejectTwitter && a.rejectWikipedia
    ensures r.Failure? ==> r.error == NoEntities
    ensures r.Success? ==> StartsWith(r.value, "ssf-" + ModeName(m))
  {
    match EntityPart(a)
    case None => Failure(NoEntities)
    case Some(entities) =>
      var p := "ssf-" + ModeName(m);
      var d := p + (Middle(entities, a) + IntToString(a.cutoffStepSize));
      assert d[..|p|] == p;
      Success(d)
  }

  /** The corrected description reads the same attribute the parser
      fills. */
  lemma DescriptionReadsStep(a: SsfArgs, m: Mode)
    requires !(a.rejectTwitter && a.rejectWikipedia)
    ensures IntAttr(a, "cutoff_step_size") == Some(a.cutoffStepSize)
    ensures Description(a, m).value ==
      "ssf-" + ModeName(m) + (Middle(EntityPart(a).value, a) + IntToString(IntAttr(a, "cutoff_step_size").value))
  {
  }

  /** The cutoff step reads back from the description's tail with int(). */
  lemma DescriptionStep(a: SsfArgs, m: Mode)
    requires Description(a, m).Success?
    ensures |IntToString(a.cutoffStepSize)| <= |Description(a, m).value|
    ensures PyInt(Description(a, m).value[|Description(a, m).value| - |IntToString(a.cutoffStepSize)|..])
      == Some(a.cutoffStepSize)
  {
    var r := Description(a, m).value;
    var d := IntToString(a.cutoffStepSize);
    var p := "ssf-" + ModeName(m) + Middle(EntityPart(a).value, a);
    assert r == p + d;
    assert r[|p|..] == d;
    PyIntOfIntToString(a.cutoffStepSize);
  }

  /** The four modes of one run never share a file name: their names
      differ in length and the rest of the description is the same. */
  lemma ModesApart(a: SsfArgs, m1: Mode, m2: Mode)
    requires Description(a, m1).Success?
    requires m1 != m2
    ensures Description(a, m1) != Description(a, m2)
  {
    var tail := Middle(EntityPart(a).value, a) + IntToString(a.cutoffStepSize);
    assert |Description(a, m1).value| == 4 + |ModeName(m1)| + |tail|;
    assert |Description(a, m2).value| == 4 + |ModeName(m2)| + |tail|;
  }
}
