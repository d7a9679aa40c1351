/** Exactly which resources the Kyverno normalisation admits, and when it leaves the sync options alone. */
module CrdLaws {
  import opened Collections
  import opened JsonTrees
  import opened Text
  import opened CrdNormalization

  // ---- the sync options ---------------------------------------------------------------------

  /** The options with commas between them. */
  function Joined(options: seq<string>): string
    requires options != []
  {
    if |options| == 1 then options[0] else options[0] + "," + Joined(options[1..])
  }

  /** Splitting at commas undoes joining with commas, and the other way round. */
  lemma {:induction false} OptionsRoundTrip(text: string)
    ensures Options(text) != [] && Joined(Options(text)) == text && forall o | o in Options(text) :: ',' !in o
  {
    if ',' !in text {
    } else {
      OptionsRoundTrip(text[1..]);
      assert text == [text[0]] + text[1..];
      var rest := Options(text[1..]);
      if text[0] == ',' {
        assert Options(text)[1..] == rest;
      } else {
        assert Options(text)[1..] == rest[1..];
        assert rest == [rest[0]] + rest[1..];
      }
    }
  }

  lemma {:induction false} JoinedRoundTrip(options: seq<string>)
    requires options != [] && forall o | o in options :: ',' !in o
    ensures Options(Joined(options)) == options
    decreases |options|
  {
    var n := |options| - 1;
    assert options[n] in options;
    if n == 0 {
    } else {
      var fewer := options[..n];
      assert forall o | o in fewer :: o in options;
      JoinedRoundTrip(fewer);
      JoinedSnoc(fewer, options[n]);
      OptionsAppend(Joined(fewer), options[n]);
      assert options == fewer + [options[n]];
    }
  }

  lemma {:induction false} JoinedSnoc(options: seq<string>, last: string)
    requires options != []
    ensures Joined(options + [last]) == Joined(options) + "," + last
  {
    var more := options + [last];
    if |options| == 1 {
      assert more[1..] == [last];
    } else {
      assert more[1..] == options[1..] + [last];
      JoinedSnoc(options[1..], last);
    }
  }

  /** The options are left alone exactly when one of them, trimmed, is the value already. */
  lemma LeftAloneIff(text: string, value: string)
    requires Plain(value)
    ensures WithOption(text, value) == text <==> exists o | o in Options(text) :: GoTrim(o) == value
  {
    TrimTight(value, IsGoSpace);
    assert |text + "," + value| > |text|;
  }

  // ---- what is admitted ---------------------------------------------------------------------

  predicate EmptyMap(metadata: Resource, field: string) {
    field in metadata && metadata[field].Obj? && metadata[field].fields == map[]
  }

  /** The name ends in the suffix of the policies CRDs. */
  ghost predicate PoliciesName(metadata: Resource) {
    "name" in metadata && metadata["name"].Str? && exists kind :: metadata["name"].s == kind + ".policies.kyverno.io"
  }

  lemma SuffixIff(s: string, suffix: string)
    ensures HasSuffix(s, suffix) <==> exists p :: s == p + suffix
  {
    if HasSuffix(s, suffix) { assert s == s[..|s| - |suffix|] + suffix; }
  }

  lemma PoliciesNameIff(metadata: Resource)
    ensures HasSuffix(NameOf(metadata), SUFFIX) <==> PoliciesName(metadata)
  {
    SuffixIff(NameOf(metadata), SUFFIX);
  }

  /** A resource is admitted exactly when it is no custom resource definition, or has a metadata object in
      which a policies CRD has both labels and annotations, empty ones, and any other CRD has no
      annotations or an object of them whose sync options, if any, are a text. */
  lemma NormalizesIff(r: Resource)
    ensures Normalized(r).Some?
            <==> || !("kind" in r && r["kind"].Str? && GoTrim(r["kind"].s) == "CustomResourceDefinition")
                 || (&& "metadata" in r && r["metadata"].Obj?
                     && var m := r["metadata"].fields;
                        if PoliciesName(m) then EmptyMap(m, "labels") && EmptyMap(m, "annotations")
                        else "annotations" in m ==>
                               && m["annotations"].Obj?
                               && (SYNC_KEY in m["annotations"].fields ==> m["annotations"].fields[SYNC_KEY].Str?))
  {
    if IsCrd(r) && "metadata" in r && r["metadata"].Obj? { MetadataAdmitted(r["metadata"].fields); }
  }

  lemma MetadataAdmitted(m: Resource)
    ensures NewMetadata(m).Some?
            <==> if PoliciesName(m) then EmptyMap(m, "labels") && EmptyMap(m, "annotations")
                 else "annotations" in m ==>
                        && m["annotations"].Obj?
                        && (SYNC_KEY in m["annotations"].fields ==> m["annotations"].fields[SYNC_KEY].Str?)
  {
    PoliciesNameIff(m);
  }
}
