/** The mutating and validating webhooks, the CRD's own rules, and every run of
    serialised create, update and delete requests through them. */
module Admission {
  import opened Common
  import opened Projections

  // ---------------------------------------------------------------- label mirroring

  const USER_PREFIX := "user.otterscale.io/"
  const NAMESPACE_LABEL := "tenant.otterscale.io/namespace"

  predicate HasPrefix(key: string, prefix: string) {
    prefix <= key
  }

  function UserLabels(members: seq<Member>): set<string> {
    set i | 0 <= i < |members| :: USER_PREFIX + members[i].subject
  }

  function MirrorMembers(labels: map<string, string>, members: seq<Member>): map<string, string> {
    map k | k in labels.Keys + UserLabels(members) && (HasPrefix(k, USER_PREFIX) ==> k in UserLabels(members)) ::
      if k in UserLabels(members) then "true" else labels[k]
  }

  /** All the labels defaulting leaves. */
  function DefaultedLabels(labels: map<string, string>, members: seq<Member>, ns: string): map<string, string> {
    MirrorMembers(labels, members)[NAMESPACE_LABEL := ns]
  }

  /** The index external callers select on: a user label exactly for the current
      subjects, and the namespace label. */
  ghost predicate Indexed(labels: map<string, string>, members: seq<Member>, ns: string) {
    && (forall k :: HasPrefix(k, USER_PREFIX) ==> (k in labels <==> k in UserLabels(members)))
    && (forall k :: k in UserLabels(members) ==> k in labels && labels[k] == "true")
    && NAMESPACE_LABEL in labels && labels[NAMESPACE_LABEL] == ns
  }

  lemma NamespaceLabelIsNoUserLabel(members: seq<Member>)
    ensures !HasPrefix(NAMESPACE_LABEL, USER_PREFIX)
    ensures forall k :: k in UserLabels(members) ==> HasPrefix(k, USER_PREFIX) && k != NAMESPACE_LABEL
  {
    assert NAMESPACE_LABEL[0] == 't' && USER_PREFIX[0] == 'u';
  }

  /** Defaulting builds the index, leaves every other label alone, and changes
      nothing when done again. */
  lemma DefaultingIndexes(labels: map<string, string>, members: seq<Member>, ns: string)
    ensures var after := DefaultedLabels(labels, members, ns);
            && Indexed(after, members, ns)
            && (forall k :: !HasPrefix(k, USER_PREFIX) && k != NAMESPACE_LABEL ==>
                  (k in after <==> k in labels) && (k in after ==> after[k] == labels[k]))
            && DefaultedLabels(after, members, ns) == after
  {
    NamespaceLabelIsNoUserLabel(members);
  }

  // ---------------------------------------------------------------- namespace names

  const ATTEMPTS := 5
  const SUFFIX_CHARS := "bcdfghjklmnpqrstvwxz2456789"

  /** One draw of the generator: a random byte and five random characters. */
  datatype Draw = Draw(byte: nat, suffix: string)

  predicate ValidDraw(d: Draw) {
    d.byte < 256 && |d.suffix| == 5 && forall i :: 0 <= i < 5 ==> d.suffix[i] in SUFFIX_CHARS
  }

  function GenerateNamespaceName(d: Draw): string
    requires ValidDraw(d)
  {
    ['a' + (d.byte % 26) as char] + d.suffix
  }

  predicate LabelChar(c: char) {
    'a' <= c <= 'z' || '0' <= c <= '9'
  }

  /** The CRD pattern for spec.namespace. */
  predicate MatchesPattern(s: string) {
    s == "" ||
    (LabelChar(s[0]) && LabelChar(s[|s| - 1]) && forall i :: 0 <= i < |s| ==> LabelChar(s[i]) || s[i] == '-')
  }

  const RESERVED := {"default", "kube-system", "kube-public", "kube-node-lease", "otterscale-system"}

  predicate UsableNamespace(ns: string) {
    ns != "" && |ns| <= 63 && MatchesPattern(ns) && ns !in RESERVED
  }

  /** Different draws give different names, up to the letter the byte stands for. */
  lemma NamesTellDrawsApart(d: Draw, e: Draw)
    requires ValidDraw(d) && ValidDraw(e)
    ensures GenerateNamespaceName(d) == GenerateNamespaceName(e) <==> d.byte % 26 == e.byte % 26 && d.suffix == e.suffix
  {
    var s, t := GenerateNamespaceName(d), GenerateNamespaceName(e);
    assert s[1..] == d.suffix && t[1..] == e.suffix;
  }

  lemma GeneratedNamesAreUsable(d: Draw)
    requires ValidDraw(d)
    ensures UsableNamespace(GenerateNamespaceName(d))
  {
    var s := GenerateNamespaceName(d);
    forall i | 0 <= i < |s| ensures LabelChar(s[i]) {
      if i > 0 {
        SuffixCharsAreLabelChars(d.suffix[i - 1]);
      }
    }
    assert |s| == 6;
    forall r | r in RESERVED ensures |r| != 6 {}
  }

  lemma SuffixCharsAreLabelChars(c: char)
    requires c in SUFFIX_CHARS
    ensures LabelChar(c)
  {
    assert forall i :: 0 <= i < |SUFFIX_CHARS| ==> LabelChar(SUFFIX_CHARS[i]);
  }

  /** The i-th probe is reached and finds its name free. */
  predicate FirstFree(draws: seq<Draw>, taken: set<string>, broken: set<nat>, i: nat)
    requires forall j :: 0 <= j < |draws| ==> ValidDraw(draws[j])
  {
    && i < ATTEMPTS && i < |draws|
    && GenerateNamespaceName(draws[i]) !in taken
    && (forall j :: 0 <= j <= i ==> j !in broken)
    && (forall j :: 0 <= j < i ==> GenerateNamespaceName(draws[j]) in taken)
  }

  // ---------------------------------------------------------------- the defaulter

  class Draft {
    const members: seq<Member>
    var ns: string
    var labels: map<string, string>

    constructor (ns: string, members: seq<Member>, labels: map<string, string>)
      ensures this.ns == ns && this.members == members && this.labels == labels
    {
      this.ns, this.members, this.labels := ns, members, labels;
    }

    method DesiredLabels() returns (desired: set<string>)
      ensures desired == UserLabels(members)
    {
      desired := {};
      for i := 0 to |members|
        invariant desired == UserLabels(members[..i])
      {
        assert UserLabels(members[..i + 1]) == UserLabels(members[..i]) + {USER_PREFIX + members[i].subject};
        desired := desired + {USER_PREFIX + members[i].subject};
      }
      assert members[..|members|] == members;
    }

    method DropStaleLabels(desired: set<string>)
      modifies this`labels
      ensures forall k :: k in labels <==> k in old(labels) && (HasPrefix(k, USER_PREFIX) ==> k in desired)
      ensures forall k :: k in labels ==> labels[k] == old(labels)[k]
    {
      var todo := labels.Keys;
      while todo != {}
        invariant forall k :: k in labels <==>
                    k in old(labels) && (k in todo || (HasPrefix(k, USER_PREFIX) ==> k in desired))
        invariant forall k :: k in labels ==> labels[k] == old(labels)[k]
      {
        var k :| k in todo;
        if HasPrefix(k, USER_PREFIX) && k !in desired {
          labels := labels - {k};
        }
        todo := todo - {k};
      }
    }

    method AddLabels(desired: set<string>)
      modifies this`labels
      ensures forall k :: k in labels <==> k in old(labels) || k in desired
      ensures forall k :: k in labels ==> labels[k] == if k in desired then "true" else old(labels)[k]
    {
      var todo := desired;
      while todo != {}
        invariant todo <= desired
        invariant forall k :: k in labels <==> k in old(labels) || k in desired - todo
        invariant forall k :: k in labels ==> labels[k] == if k in desired - todo then "true" else old(labels)[k]
      {
        var k :| k in todo;
        labels := labels[k := "true"];
        todo := todo - {k};
      }
    }

    method DefaultMemberLabels()
      modifies this`labels
      ensures labels == MirrorMembers(old(labels), members)
    {
      var desired := DesiredLabels();
      DropStaleLabels(desired);
      AddLabels(desired);
      NamespaceLabelIsNoUserLabel(members);
    }

    method DefaultNamespaceLabel()
      modifies this`labels
      ensures labels == old(labels)[NAMESPACE_LABEL := ns]
    {
      labels := labels[NAMESPACE_LABEL := ns];
    }

    /** The bounded search: the first of five candidates that is free, or no name. */
    method GenerateAvailableNamespaceName(draws: seq<Draw>, taken: set<string>, broken: set<nat>)
      returns (r: Reply<string>, ghost hit: nat)
      requires |draws| >= ATTEMPTS && forall j :: 0 <= j < |draws| ==> ValidDraw(draws[j])
      ensures r.Ok? ==> FirstFree(draws, taken, broken, hit) && r.value == GenerateNamespaceName(draws[hit])
      ensures r.Err? ==> forall i: nat :: !FirstFree(draws, taken, broken, i)
    {
      for i := 0 to ATTEMPTS
        invariant forall j :: 0 <= j < i ==> j !in broken && GenerateNamespaceName(draws[j]) in taken
      {
        var name := GenerateNamespaceName(draws[i]);
        if i in broken {
          return Err, i;
        }
        if name !in taken {
          return Ok(name), i;
        }
      }
      return Err, ATTEMPTS;
    }

    /** Fills in a namespace when none was given, then mirrors members and namespace. */
    method Default(draws: seq<Draw>, taken: set<string>, broken: set<nat>) returns (r: Reply<()>)
      requires |draws| >= ATTEMPTS && forall j :: 0 <= j < |draws| ==> ValidDraw(draws[j])
      modifies this
      ensures r.Err? ==> ns == "" && labels == old(labels)
      ensures r.Err? <==> old(ns) == "" && forall i: nat :: !FirstFree(draws, taken, broken, i)
      ensures r.Ok? ==> if old(ns) == "" then UsableNamespace(ns) && ns !in taken else ns == old(ns)
      ensures r.Ok? ==> labels == DefaultedLabels(old(labels), members, ns)
    {
      if ns == "" {
        var name, hit := GenerateAvailableNamespaceName(draws, taken, broken);
        if name.Err? {
          return Err;
        }
        GeneratedNamesAreUsable(draws[hit]);
        ns := name.value;
      }
      DefaultMemberLabels();
      DefaultNamespaceLabel();
      return Ok(());
    }
  }
}
