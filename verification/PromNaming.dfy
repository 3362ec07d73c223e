/** The Prometheus label view of an OTLP series: name normalisation, flattened resource attributes,
    synthesized job and instance. */
module PromNaming {
  import opened Text
  import opened Selector

  /** Attributes in the order they are ranged over, values already rendered as text. */
  type Attrs = seq<(string, string)>

  predicate IsDigit(c: char) {
    '0' <= c <= '9'
  }

  predicate IsWord(lib: Library, c: char) {
    if c < '\U{80}' then 'a' <= c <= 'z' || 'A' <= c <= 'Z' || IsDigit(c) else lib.isWordBeyondAscii(c)
  }

  function Underscored(lib: Library, s: string): (r: string)
    ensures |r| == |s|
    ensures forall i | 0 <= i < |s| :: r[i] == if IsWord(lib, s[i]) then s[i] else '_'
  {
    seq(|s|, i requires 0 <= i < |s| => if IsWord(lib, s[i]) then s[i] else '_')
  }

  function NormalizeLabelName(lib: Library, key: string): string {
    if key == "" then key
    else
      var r := Underscored(lib, key);
      if IsDigit(r[0]) then "key_" + r
      else if "_" <= r && !("__" <= r) then "key" + r
      else r
  }

  predicate IsAscii(s: string) {
    forall i | 0 <= i < |s| :: s[i] < '\U{80}'
  }

  /** A normalised ASCII label name is a name a selector can mention; normalising it again changes nothing; and no
      normalised name, ASCII or not, holds a character with a meaning in fingerprints or selectors. */
  lemma {:induction false} NormalizedNames(lib: Library, key: string)
    ensures var n := NormalizeLabelName(lib, key);
            && (key != "" && IsAscii(key) ==> IsName(n, false))
            && NormalizeLabelName(lib, n) == n
            && forall i | 0 <= i < |n| :: IsWord(lib, n[i]) || n[i] == '_'
  {
    var n := NormalizeLabelName(lib, key);
    if key != "" {
      var r := Underscored(lib, key);
      assert |r| >= 2 ==> r[..2] == [r[0], r[1]];
      assert n[0] == if n == r then r[0] else 'k';
      assert forall i | 0 <= i < |n| :: IsWord(lib, n[i]) || n[i] == '_';
      assert Underscored(lib, n) == n;
    }
  }

  /** What a label name becomes, by its first character: a letter stays, a digit gets the prefix `key_`, and anything
      else becomes an underscore, prefixed with `key` unless another one follows. */
  lemma {:induction false} NormalizedByFirst(lib: Library, c: char, rest: string)
    ensures NormalizeLabelName(lib, "") == ""
    ensures var tail := Underscored(lib, rest);
            NormalizeLabelName(lib, [c] + rest) ==
              if IsDigit(c) then "key_" + [c] + tail
              else if IsWord(lib, c) then [c] + tail
              else if rest != "" && (rest[0] == '_' || !IsWord(lib, rest[0])) then "_" + tail
              else "key_" + tail
  {
    var key, tail := [c] + rest, Underscored(lib, rest);
    var r := Underscored(lib, key);
    assert r == [r[0]] + tail;
    assert rest != "" ==> r[1] == tail[0] && r[..2] == [r[0], r[1]];
    assert "key" + ("_" + tail) == "key_" + tail;
    assert "key_" + ([c] + tail) == "key_" + [c] + tail;
  }

  // ----- label maps -----

  /** `labels` after ranging over `attrs`: a later attribute overwrites an earlier one of the same normalised name. */
  function Overlay(lib: Library, labels: Labels, attrs: Attrs): Labels {
    if attrs == [] then labels
    else
      var last := attrs[|attrs| - 1];
      Overlay(lib, labels, attrs[..|attrs| - 1])[NormalizeLabelName(lib, last.0) := last.1]
  }

  /** The attribute stored under exactly this key, "" if there is none. */
  function AttrText(attrs: Attrs, key: string): string {
    if attrs == [] then "" else if attrs[0].0 == key then attrs[0].1 else AttrText(attrs[1..], key)
  }

  function JobLabel(res: Attrs): string {
    var name := AttrText(res, "service.name");
    var ns := AttrText(res, "service.namespace");
    if name == "" then "" else if ns == "" then name else ns + "/" + name
  }

  function InstanceLabel(res: Attrs): string {
    var id := AttrText(res, "service.instance.id");
    if id != "" then id else AttrText(res, "host.name")
  }

  function AddIfAbsent(labels: Labels, name: string, value: string): Labels {
    if name in labels || value == "" then labels else labels[name := value]
  }

  function AddJobInstance(labels: Labels, res: Attrs): Labels {
    AddIfAbsent(AddIfAbsent(labels, "job", JobLabel(res)), "instance", InstanceLabel(res))
  }

  function ResourceLabels(lib: Library, res: Attrs): Labels {
    AddJobInstance(Overlay(lib, map[], res), res)
  }

  /** The full label set of one exported series. */
  function SeriesLabels(lib: Library, res: Attrs, point: Attrs, extra: Attrs): Labels {
    Overlay(lib, AddJobInstance(Overlay(lib, Overlay(lib, map[], res), point), res), extra)
  }

  /** The loops that fill a label map. */
  method Flatten(lib: Library, labels0: Labels, attrs: Attrs) returns (labels: Labels)
    ensures labels == Overlay(lib, labels0, attrs)
  {
    labels := labels0;
    for i := 0 to |attrs|
      invariant labels == Overlay(lib, labels0, attrs[..i])
    {
      labels := labels[NormalizeLabelName(lib, attrs[i].0) := attrs[i].1];
      assert attrs[..i + 1][..i] == attrs[..i];
    }
    assert attrs[..|attrs|] == attrs;
  }

  method BuildSeriesLabels(lib: Library, res: Attrs, point: Attrs, extra: Attrs) returns (labels: Labels)
    ensures labels == SeriesLabels(lib, res, point, extra)
  {
    labels := Flatten(lib, map[], res);
    labels := Flatten(lib, labels, point);
    labels := AddJobInstance(labels, res);
    labels := Flatten(lib, labels, extra);
  }

  method ResourceLabelMap(lib: Library, res: Attrs) returns (labels: Labels)
    ensures labels == ResourceLabels(lib, res)
  {
    labels := Flatten(lib, map[], res);
    labels := AddJobInstance(labels, res);
  }

  /** `attrs[i]` is the last attribute with this normalised name. */
  ghost predicate Supplies(lib: Library, attrs: Attrs, i: nat, name: string)
    requires i < |attrs|
  {
    && NormalizeLabelName(lib, attrs[i].0) == name
    && forall j | i < j < |attrs| :: NormalizeLabelName(lib, attrs[j].0) != name
  }

  ghost predicate Unsupplied(lib: Library, attrs: Attrs, name: string) {
    forall i | 0 <= i < |attrs| :: NormalizeLabelName(lib, attrs[i].0) != name
  }

  lemma {:induction false} OverlaidIff(lib: Library, attrs: Attrs, name: string)
    ensures name in Overlay(lib, map[], attrs) <==> !Unsupplied(lib, attrs, name)
  {
    if attrs != [] {
      var front, n := attrs[..|attrs| - 1], |attrs| - 1;
      OverlaidIff(lib, front, name);
      assert forall i | 0 <= i < n :: front[i] == attrs[i];
      if NormalizeLabelName(lib, attrs[n].0) != name {
        assert Unsupplied(lib, front, name) <==> Unsupplied(lib, attrs, name);
      }
    }
  }

  /** A label comes from the last attribute that has its name once normalised. */
  lemma {:induction false} OverlaidBy(lib: Library, attrs: Attrs, i: nat, name: string)
    requires i < |attrs| && Supplies(lib, attrs, i, name)
    ensures name in Overlay(lib, map[], attrs) && Overlay(lib, map[], attrs)[name] == attrs[i].1
  {
    var front, n := attrs[..|attrs| - 1], |attrs| - 1;
    if i < n {
      assert NormalizeLabelName(lib, attrs[n].0) != name;
      assert Supplies(lib, front, i, name);
      OverlaidBy(lib, front, i, name);
    }
  }

  /** The value under a key is that of the first attribute with exactly this key. */
  lemma {:induction false} AttrTextExact(attrs: Attrs, key: string)
    ensures (forall i | 0 <= i < |attrs| :: attrs[i].0 != key) ==> AttrText(attrs, key) == ""
    ensures forall i | 0 <= i < |attrs| && attrs[i].0 == key && (forall j | 0 <= j < i :: attrs[j].0 != key) ::
              AttrText(attrs, key) == attrs[i].1
  {
    if attrs != [] && attrs[0].0 != key {
      var rest := attrs[1..];
      AttrTextExact(rest, key);
      forall i | 0 <= i < |attrs| && attrs[i].0 == key && (forall j | 0 <= j < i :: attrs[j].0 != key)
        ensures AttrText(attrs, key) == attrs[i].1
      {
        assert rest[i - 1] == attrs[i];
        assert forall j | 0 <= j < i - 1 :: rest[j] == attrs[j + 1];
      }
      assert forall i | 0 <= i < |rest| :: rest[i] == attrs[i + 1];
    }
  }

  /** What job and instance read as when no attribute supplies them: made up of the service's name and namespace, and of
      its instance id or else its host. With an attribute of that name, nothing is made up. */
  lemma {:induction false} JobInstanceExact(lib: Library, res: Attrs, point: Attrs)
    ensures var labels := SeriesLabels(lib, res, point, []);
            var name, space := AttrText(res, "service.name"), AttrText(res, "service.namespace");
            var id, host := AttrText(res, "service.instance.id"), AttrText(res, "host.name");
            && (Unsupplied(lib, res, "job") && Unsupplied(lib, point, "job") ==>
                  && ("job" in labels <==> name != "")
                  && (name != "" && space == "" ==> labels["job"] == name)
                  && (name != "" && space != "" ==> labels["job"] == space + "/" + name))
            && (Unsupplied(lib, res, "instance") && Unsupplied(lib, point, "instance") ==>
                  && ("instance" in labels <==> id != "" || host != "")
                  && (id != "" ==> labels["instance"] == id)
                  && (id == "" && host != "" ==> labels["instance"] == host))
  {
    SuppliedOrMade(lib, res, point, "job");
    SuppliedOrMade(lib, res, point, "instance");
  }

  /** A label that an attribute supplies reads as that attribute, the datapoint's before the resource's. */
  lemma {:induction false} SuppliedOrMade(lib: Library, res: Attrs, point: Attrs, name: string)
    ensures var both := Overlay(lib, Overlay(lib, map[], res), point);
            name in both <==> !Unsupplied(lib, res, name) || !Unsupplied(lib, point, name)
    ensures forall i | 0 <= i < |point| && Supplies(lib, point, i, name) ::
              Lookup(SeriesLabels(lib, res, point, []), name) == point[i].1
    ensures Unsupplied(lib, point, name) ==>
              forall i | 0 <= i < |res| && Supplies(lib, res, i, name) ::
                Lookup(SeriesLabels(lib, res, point, []), name) == res[i].1
  {
    OverlayLookup(lib, Overlay(lib, map[], res), point, name);
    OverlaidIff(lib, res, name);
    OverlaidIff(lib, point, name);
    forall i | 0 <= i < |point| && Supplies(lib, point, i, name)
      ensures Lookup(SeriesLabels(lib, res, point, []), name) == point[i].1
    {
      OverlaidBy(lib, point, i, name);
    }
    forall i | 0 <= i < |res| && Supplies(lib, res, i, name) && Unsupplied(lib, point, name)
      ensures Lookup(SeriesLabels(lib, res, point, []), name) == res[i].1
    {
      OverlaidBy(lib, res, i, name);
    }
  }

  // ----- the split view equals the full view -----

  /** Datapoint attributes first, resource labels second, absent otherwise. */
  function SplitLookup(lib: Library, res: Attrs, point: Attrs, name: string): string {
    var own := Overlay(lib, map[], point);
    if name in own then own[name] else Lookup(ResourceLabels(lib, res), name)
  }

  lemma {:induction false} OverlayLookup(lib: Library, labels: Labels, attrs: Attrs, name: string)
    ensures var own := Overlay(lib, map[], attrs);
            var all := Overlay(lib, labels, attrs);
            && (name in all <==> name in own || name in labels)
            && (name in own ==> all[name] == own[name])
            && (name !in own && name in labels ==> all[name] == labels[name])
  {
    if attrs != [] {
      OverlayLookup(lib, labels, attrs[..|attrs| - 1], name);
    }
  }

  lemma {:induction false} NotOverlaid(lib: Library, attrs: Attrs, name: string)
    requires forall i | 0 <= i < |attrs| :: NormalizeLabelName(lib, attrs[i].0) != name
    ensures name !in Overlay(lib, map[], attrs)
  {
    if attrs != [] {
      NotOverlaid(lib, attrs[..|attrs| - 1], name);
    }
  }

  /** Looking a name up in the datapoint attributes and then in the resource labels gives what the full series
      label set holds, for every name no extra label (le, quantile) is written under. */
  lemma {:induction false} SplitViewIsSeriesView(lib: Library, res: Attrs, point: Attrs, extra: Attrs, name: string)
    requires forall i | 0 <= i < |extra| :: NormalizeLabelName(lib, extra[i].0) != name
    ensures SplitLookup(lib, res, point, name) == Lookup(SeriesLabels(lib, res, point, extra), name)
  {
    var resource := Overlay(lib, map[], res);
    OverlayLookup(lib, resource, point, name);
    var both := Overlay(lib, resource, point);
    NotOverlaid(lib, extra, name);
    OverlayLookup(lib, AddJobInstance(both, res), extra, name);
  }

  /** Extra labels change only the names they are written under. */
  lemma {:induction false} ExtraOnlyAdds(lib: Library, res: Attrs, point: Attrs, extra: Attrs, name: string)
    requires forall i | 0 <= i < |extra| :: NormalizeLabelName(lib, extra[i].0) != name
    ensures Lookup(SeriesLabels(lib, res, point, extra), name) == Lookup(SeriesLabels(lib, res, point, []), name)
  {
    SplitViewIsSeriesView(lib, res, point, extra, name);
    SplitViewIsSeriesView(lib, res, point, [], name);
  }

  lemma {:induction false} BucketLabelNames(lib: Library)
    ensures NormalizeLabelName(lib, "le") == "le" && NormalizeLabelName(lib, "quantile") == "quantile"
  {
    assert Underscored(lib, "le") == "le" && Underscored(lib, "quantile") == "quantile";
  }
}
