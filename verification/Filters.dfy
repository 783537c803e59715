/** Cost filters and the parser of their text form (types/filter.go). */
module Filters {
  import opened Wrappers
  import opened GoStrings

  /** The components of a filter that hold a list of values. */
  datatype Component = Cluster | Namespace | ControllerName | ControllerKind | Pod

  /** What a filter says at one moment. A nil list and a nil map are empty here. */
  datatype Content = Content(
    cluster: seq<string>, namespace: seq<string>, controllerName: seq<string>, controllerKind: seq<string>,
    pod: seq<string>, labels: map<string, seq<string>>)
  {
    function Get(c: Component): seq<string> {
      match c
      case Cluster => cluster
      case Namespace => namespace
      case ControllerName => controllerName
      case ControllerKind => controllerKind
      case Pod => pod
    }

    function With(c: Component, values: seq<string>): Content {
      match c
      case Cluster => this.(cluster := values)
      case Namespace => this.(namespace := values)
      case ControllerName => this.(controllerName := values)
      case ControllerKind => this.(controllerKind := values)
      case Pod => this.(pod := values)
    }
  }

  const EMPTY := Content([], [], [], [], [], map[])

  datatype FilterError = InvalidFormat(part: string) | UnsupportedKey(key: string) | UnsupportedKind(kind: string)

  const SEPARATOR := '\U{1F}'
  const PREFIXES := ["namespace:", "controllerName:", "controllerKind:", "pod:", "label["]

  // ---------------------------------------------------------------------------------------
  // The meaning of a filter text
  // ---------------------------------------------------------------------------------------

  /** The text with a separator before every occurrence of the first n prefixes, one prefix after the other. */
  function Marked(text: string, n: nat): string
    requires n <= |PREFIXES|
  {
    if n == 0 then text
    else Replace(Marked(text, n - 1), PREFIXES[n - 1], [SEPARATOR] + PREFIXES[n - 1])
  }

  function FilterParts(text: string): seq<string> {
    Split(Marked(text, |PREFIXES|), SEPARATOR)
  }

  function Unquoted(value: string): string {
    Trim(Trim(value, {' '}), {'"'})
  }

  function AllUnquoted(values: seq<string>): (r: seq<string>)
    ensures |r| == |values| && forall i :: 0 <= i < |r| ==> r[i] == Unquoted(values[i])
  {
    if values == [] then [] else AllUnquoted(values[..|values| - 1]) + [Unquoted(values[|values| - 1])]
  }

  function ValueList(values: string): seq<string> {
    AllUnquoted(Split(values, ','))
  }

  /** The component a key names, by its beginning. */
  function ComponentOf(key: string): Option<Component> {
    if HasPrefix(key, "cluster") then Some(Cluster)
    else if HasPrefix(key, "namespace") then Some(Namespace)
    else if HasPrefix(key, "controllerName") then Some(ControllerName)
    else if HasPrefix(key, "controllerKind") then Some(ControllerKind)
    else if HasPrefix(key, "pod") then Some(Pod)
    else None
  }

  /** One part of the text, applied to the filter. */
  function Apply(f: Content, part: string): Result<Content, FilterError> {
    if part == "" then Success(f)
    else
      var trimmed := Trim(part, {' '});
      match Cut(trimmed, ":\"")
      case None => Failure(InvalidFormat(trimmed))
      case Some((before, after)) =>
        var key, values := Trim(before, {'"'}), Trim(after, {'+'});
        match ComponentOf(key)
        case Some(c) => Success(f.With(c, ValueList(values)))
        case None =>
          if HasPrefix(key, "label[") then
            Success(f.(labels := map[TrimSuffix(TrimPrefix(key, "label["), "]") := [Trim(values, {'"'})]]))
          else Failure(UnsupportedKey(key))
  }

  function ApplyAll(parts: seq<string>): Result<Content, FilterError> {
    if parts == [] then Success(EMPTY)
    else
      match ApplyAll(parts[..|parts| - 1])
      case Failure(e) => Failure(e)
      case Success(f) => Apply(f, parts[|parts| - 1])
  }

  function CanonicalKind(kind: string): Option<string> {
    var lower := ToLower(kind);
    if lower == "deployment" || lower == "replicaset" then Some("ReplicaSet")
    else if lower == "daemonset" then Some("DaemonSet")
    else if lower == "statefulset" then Some("StatefulSet")
    else if lower == "job" then Some("Job")
    else None
  }

  function CanonicalKinds(kinds: seq<string>): Result<seq<string>, FilterError> {
    if kinds == [] then Success([])
    else
      var n := |kinds| - 1;
      match CanonicalKinds(kinds[..n])
      case Failure(e) => Failure(e)
      case Success(before) =>
        match CanonicalKind(kinds[n])
        case None => Failure(UnsupportedKind(kinds[n]))
        case Some(kind) => Success(before + [kind])
  }

  /** Every kind is replaced by its canonical form, or some kind, named in the error, has none. */
  lemma {:induction false} KindsAreCanonical(kinds: seq<string>)
    ensures match CanonicalKinds(kinds)
            case Success(r) => |r| == |kinds| && forall i :: 0 <= i < |kinds| ==> CanonicalKind(kinds[i]) == Some(r[i])
            case Failure(e) => e.UnsupportedKind? && e.kind in kinds && CanonicalKind(e.kind) == None
  {
    hide CanonicalKind;
    if kinds != [] {
      KindsAreCanonical(kinds[..|kinds| - 1]);
    }
  }

  /** What a text means: its parts applied in order, with canonical controller kinds. */
  function Meaning(text: string): Result<Content, FilterError> {
    match ApplyAll(FilterParts(text))
    case Failure(e) => Failure(e)
    case Success(f) =>
      match CanonicalKinds(f.controllerKind)
      case Failure(e) => Failure(e)
      case Success(kinds) => Success(f.(controllerKind := kinds))
  }

  // ---------------------------------------------------------------------------------------
  // The parser
  // ---------------------------------------------------------------------------------------

  class Filter {
    var cluster: seq<string>
    var namespace: seq<string>
    var controllerName: seq<string>
    var controllerKind: seq<string>
    var pod: seq<string>
    var labels: map<string, seq<string>>

    constructor ()
      ensures View() == EMPTY
    {
      cluster, namespace, controllerName, controllerKind, pod, labels := [], [], [], [], [], map[];
    }

    function View(): Content
      reads this
    {
      Content(cluster, namespace, controllerName, controllerKind, pod, labels)
    }

    predicate IsEmptyExceptCluster()
      reads this
      ensures IsEmptyExceptCluster() <==> View() == EMPTY.(cluster := cluster)
    {
      |namespace| == 0 && |controllerName| == 0 && |controllerKind| == 0 && |pod| == 0 && |labels| == 0
    }

    /** The body of the parser's loop: one nonempty part changes the filter, or is an error. */
    method ApplyPart(part: string) returns (error: Option<FilterError>)
      modifies this
      ensures match Apply(old(View()), part)
              case Success(f) => error == None && View() == f
              case Failure(e) => error == Some(e) && View() == old(View())
    {
      hide Trim, Cut, ValueList, TrimPrefix, TrimSuffix;
      if part == "" {
        return None;
      }
      var trimmed := Trim(part, {' '});
      var kv := Cut(trimmed, ":\"");
      if kv == None {
        return Some(InvalidFormat(trimmed));
      }
      var key, values := Trim(kv.value.0, {'"'}), Trim(kv.value.1, {'+'});
      if HasPrefix(key, "cluster") {
        cluster := ParseValueList(values);
      } else if HasPrefix(key, "namespace") {
        namespace := ParseValueList(values);
      } else if HasPrefix(key, "controllerName") {
        controllerName := ParseValueList(values);
      } else if HasPrefix(key, "controllerKind") {
        controllerKind := ParseValueList(values);
      } else if HasPrefix(key, "pod") {
        pod := ParseValueList(values);
      } else if HasPrefix(key, "label[") {
        labels := map[];
        var labelKey := TrimPrefix(key, "label[");
        labelKey := TrimSuffix(labelKey, "]");
        labels := labels[labelKey := [Trim(values, {'"'})]];
      } else {
        return Some(UnsupportedKey(key));
      }
      return None;
    }

    /** Replaces every controller kind, in place, up to the first unsupported one. */
    method NormalizeKinds() returns (error: Option<FilterError>)
      modifies this
      ensures match CanonicalKinds(old(controllerKind))
              case Success(kinds) => error == None && View() == old(View()).(controllerKind := kinds)
              case Failure(e) => error == Some(e)
    {
      hide CanonicalKind;
      ghost var kinds := controllerKind;
      var i := 0;
      while i < |controllerKind|
        invariant 0 <= i <= |kinds| == |controllerKind| && controllerKind[i..] == kinds[i..]
        invariant CanonicalKinds(kinds[..i]) == Success(controllerKind[..i])
        invariant View() == old(View()).(controllerKind := controllerKind)
      {
        KindsStep(kinds, i);
        var kind := controllerKind[i];
        assert kind == kinds[i];
        var canonical := CanonicalKind(kind);
        if canonical == None {
          KindsFail(kinds, i);
          return Some(UnsupportedKind(kind));
        }
        ghost var done := controllerKind[..i];
        controllerKind := controllerKind[i := canonical.value];
        assert controllerKind[..i + 1] == done + [canonical.value];
        i := i + 1;
      }
      assert kinds[..i] == kinds && controllerKind[..i] == controllerKind;
      return None;
    }
  }

  lemma KindsStep(kinds: seq<string>, i: nat)
    requires i < |kinds|
    ensures kinds[..i + 1][..i] == kinds[..i]
  {
  }

  lemma {:induction false} KindsFail(kinds: seq<string>, i: nat)
    requires i < |kinds| && CanonicalKinds(kinds[..i]).Success? && CanonicalKind(kinds[i]) == None
    ensures CanonicalKinds(kinds) == Failure(UnsupportedKind(kinds[i]))
  {
    var n := |kinds| - 1;
    if i < n {
      assert kinds[..n][..i] == kinds[..i];
      KindsFail(kinds[..n], i);
    }
  }

  method ParseFilterParts(text: string) returns (parts: seq<string>)
    ensures parts == FilterParts(text)
  {
    var filterStr := text;
    var i := 0;
    while i < |PREFIXES|
      invariant 0 <= i <= |PREFIXES| && filterStr == Marked(text, i)
    {
      filterStr := Replace(filterStr, PREFIXES[i], [SEPARATOR] + PREFIXES[i]);
      i := i + 1;
    }
    parts := Split(filterStr, SEPARATOR);
  }

  method ParseValueList(values: string) returns (valueList: seq<string>)
    ensures valueList == ValueList(values)
  {
    valueList := Split(values, ',');
    ghost var raw := valueList;
    var i := 0;
    while i < |valueList|
      invariant 0 <= i <= |raw| == |valueList| && valueList[i..] == raw[i..]
      invariant forall j :: 0 <= j < i ==> valueList[j] == Unquoted(raw[j])
    {
      valueList := valueList[i := Trim(Trim(valueList[i], {' '}), {'"'})];
      i := i + 1;
    }
    assert valueList == AllUnquoted(raw);
  }

  method ParseFilter(text: string) returns (r: Result<Filter, FilterError>)
    ensures match Meaning(text)
            case Success(f) => r.Success? && fresh(r.value) && r.value.View() == f
            case Failure(e) => r == Failure(e)
  {
    var filter := new Filter();
    var parts := ParseFilterParts(text);
    var i := 0;
    while i < |parts|
      invariant 0 <= i <= |parts| && ApplyAll(parts[..i]) == Success(filter.View())
    {
      assert parts[..i + 1][..i] == parts[..i];
      var error := filter.ApplyPart(parts[i]);
      if error.Some? {
        FailureStays(parts, i + 1);
        return Failure(error.value);
      }
      i := i + 1;
    }
    assert parts[..i] == parts;
    var error := filter.NormalizeKinds();
    if error.Some? {
      return Failure(error.value);
    }
    return Success(filter);
  }

  lemma {:induction false} FailureStays(parts: seq<string>, i: nat)
    requires i <= |parts| && ApplyAll(parts[..i]).Failure?
    ensures ApplyAll(parts) == ApplyAll(parts[..i])
  {
    if i == |parts| {
      assert parts[..i] == parts;
    } else {
      var n := |parts| - 1;
      assert parts[..n][..i] == parts[..i];
      FailureStays(parts[..n], i);
    }
  }
}
