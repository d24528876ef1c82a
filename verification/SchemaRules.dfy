/**
 What it takes to be an acceptable schema, said of the schema itself: no order of visiting, no
 maps of what was seen before, no list of errors.
 */
module SchemaRules {
  import opened Wrappers
  import opened Idl
  import opened ValidationRules
  import opened Allocation
  import opened Dispatch
  import opened Chunks

  ghost predicate AppletOk(a: Applet) {
    && !a.workspace.OtherWorkspace? && !a.cleanup.OtherCleanup?
    && (a.cleanup.WholeReplyArea? || a.cleanup.AuthenticatedInvalidate? ==> a.workspace == Persistent)
    && !IsBlank(a.name) && IsAid(a.aid) && a.cla != 0 && IsSemver(a.version)
  }

  // A field on its own.
  ghost predicate FieldOk(f: Field) {
    && IsIdentifier(f.name) && !f.fieldType.OtherType? && !f.location.OtherLocation?
    && (f.fieldType == Stream ==> SoundStream(f) && f.location in {Unplaced, InData})
    && (f.length.Some? ==> f.fieldType in {VarBytes, Ascii} && f.length.value > 0)
    && (f.fieldType == FixedBytes ==> f.fixedLength > 0)
    && (f.location in {P1, P2} ==> IsP1P2Type(f.fieldType))
  }

  // A parameter byte carries one field at most.
  ghost predicate FieldsOk(fields: seq<Field>) {
    && (forall i | 0 <= i < |fields| :: FieldOk(fields[i]))
    && (forall i, j | 0 <= i < j < |fields| && fields[j].location in {P1, P2} ::
          fields[i].location != fields[j].location)
  }

  // A stream is alone in its message.
  ghost predicate MessageOk(fields: seq<Field>) {
    && FieldsOk(fields)
    && (forall i | 0 <= i < |fields| && fields[i].fieldType == Stream :: |fields| == 1)
  }

  // How wide the response of a streamed method is, where that is bounded: no stream in it, and
  // every field of fixed width.
  function BoundedWidth(m: Method): Option<nat> {
    if HasStream(m) && StreamField(m.response).None? then Width(Fields(m.response)) else None
  }

  // Such a response fits a short APDU.
  ghost predicate ResponseFits(m: Method) {
    BoundedWidth(m).Some? ==> BoundedWidth(m).value <= 0xFF
  }

  // A response that does not, whose width as a Go int is nevertheless at most 255, or negative.
  ghost predicate WidthWraps(m: Method) {
    && BoundedWidth(m).Some? && BoundedWidth(m).value > 0xFF
    && !(0xFF < BoundedWidth(m).value % 0x1_0000_0000_0000_0000 < 0x8000_0000_0000_0000)
  }

  /** `lenient` lets a response pass whose width wraps around. */
  ghost predicate StreamUseOk(a: Applet, m: Method, lenient: bool) {
    && (m.streamMode != NoMode ==>
          && !m.streamMode.OtherMode? && StreamField(m.request).Some?
          && a.workspace == Persistent && a.cleanup == AuthenticatedInvalidate)
    && (a.cleanup == AuthenticatedInvalidate && StreamField(m.response).Some? ==> m.streamMode != NoMode)
    && (ResponseFits(m) || (lenient && WidthWraps(m)))
    && (HasStream(m) ==>
          forall i | 0 <= i < |Fields(m.request)| :: Fields(m.request)[i].location !in {P1, P2})
  }

  ghost predicate NameOk(name: string) {
    IsBlank(name) || IsIdentifier(name)
  }

  ghost predicate MethodOk(a: Applet, key: string, m: Method, lenient: bool) {
    && IsIdentifier(key) && NameOk(m.name)
    && MessageOk(Fields(m.request)) && MessageOk(Fields(m.response))
    && StreamUseOk(a, m, lenient)
  }

  ghost predicate MethodNamesDistinct(methods: Methods) {
    forall j, k | j in methods && k in methods && j != k && methods[j].Some? && methods[k].Some? ::
      MethodName(j, methods[j].value) != MethodName(k, methods[k].value)
  }

  ghost predicate MethodsOk(a: Applet, methods: Methods, lenient: bool) {
    && methods != map[] && AllDefined(methods)
    && (forall k | k in methods :: MethodOk(a, k, methods[k].value, lenient))
    && MethodNamesDistinct(methods) && Allocated(methods)
  }

  ghost predicate StatusWordsOk(words: map<string, StatusWord>) {
    && (forall k | k in words :: IsIdentifier(k) && NameOk(words[k].name) && IsStatusCode(words[k].code))
    && (forall j, k | j in words && k in words && j != k ::
          StatusName(j, words[j]) != StatusName(k, words[k]) && words[j].code != words[k].code)
  }

  ghost predicate SchemaOk(s: Schema, lenient: bool) {
    AppletOk(s.applet) && MethodsOk(s.applet, s.methods, lenient) && StatusWordsOk(s.statusWords)
  }

  ghost predicate WellFormed(s: Schema) {
    SchemaOk(s, false)
  }

  ghost predicate SomeWidthWraps(methods: Methods) {
    exists k :: k in methods && methods[k].Some? && WidthWraps(methods[k].value)
  }

  lemma LenientIsWellFormed(s: Schema)
    ensures WellFormed(s) <==> SchemaOk(s, true) && !SomeWidthWraps(s.methods)
  {
    if WellFormed(s) {
      forall k | k in s.methods
        ensures MethodOk(s.applet, k, s.methods[k].value, true) && !WidthWraps(s.methods[k].value)
      {
        assert MethodOk(s.applet, k, s.methods[k].value, false);
      }
    }
    if SchemaOk(s, true) && !SomeWidthWraps(s.methods) {
      forall k | k in s.methods ensures MethodOk(s.applet, k, s.methods[k].value, false) {
        assert MethodOk(s.applet, k, s.methods[k].value, true);
      }
    }
  }
}
