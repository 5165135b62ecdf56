/**
 * The cross-origin setting of the configuration server. The `CORS_ORIGIN`
 * environment variable (default `*`) becomes the `origin` option of the CORS
 * plugin: `true` for `*`, otherwise the comma-separated list of origins, a
 * single origin, or `false` when the list has no entry.
 */
module Cors {

  import opened Wrappers
  import opened Text

  /** The `origin` option: `true`, one origin string, an array of origins, or `false`. */
  datatype Origin = AllowAll | Single(origin: string) | AnyOf(origins: seq<string>) | Disabled

  /** `process.env.CORS_ORIGIN || '*'`: an unset or empty variable means `*`. */
  function ConfiguredOrigin(env: Option<string>): (setting: string)
    ensures setting != ""
    ensures env.Some? && env.value != "" ==> setting == env.value
    ensures env.None? || env.value == "" ==> setting == "*"
  {
    if env.Some? && env.value != "" then env.value else "*"
  }

  /** A usable origin: not empty, no surrounding white space, no comma. */
  predicate Clean(o: string) {
    o != "" && Trim(o) == o && ',' !in o
  }

  /** An entry that survives trimming: not empty, no white space at either end. */
  predicate Tidy(p: string) {
    p != "" && Trimmed(p)
  }

  predicate CommaFree(entries: seq<string>) {
    forall j :: 0 <= j < |entries| ==> ',' !in entries[j]
  }

  /** `.map(s => s.trim()).filter(Boolean)` */
  function TrimmedEntries(raw: seq<string>): (parts: seq<string>)
    ensures |parts| <= |raw|
    ensures forall k :: 0 <= k < |parts| ==> Tidy(parts[k])
  {
    if raw == [] then []
    else
      var t := Trim(raw[0]);
      var rest := TrimmedEntries(raw[1..]);
      var parts := (if t != "" then [t] else []) + rest;
      TidyCons(t, rest, parts);
      parts
  }

  /** Putting a trimmed entry, unless it is empty, in front of tidy entries keeps them tidy. */
  lemma TidyCons(t: string, rest: seq<string>, parts: seq<string>)
    requires Trimmed(t)
    requires forall k :: 0 <= k < |rest| ==> Tidy(rest[k])
    requires parts == (if t != "" then [t] else []) + rest
    ensures forall k :: 0 <= k < |parts| ==> Tidy(parts[k])
  {
  }

  /** Trimming brings in no comma. */
  lemma {:induction false} TrimmedEntriesCommaFree(raw: seq<string>)
    requires CommaFree(raw)
    ensures CommaFree(TrimmedEntries(raw))
    decreases |raw|
  {
    if raw != [] {
      assert ',' !in raw[0];
      TrimAvoids(raw[0], ',');
      assert CommaFree(raw[1..]) by {
        assert forall j :: 0 <= j < |raw[1..]| ==> raw[1..][j] == raw[j + 1];
      }
      TrimmedEntriesCommaFree(raw[1..]);
    }
  }

  /** `CORS_ORIGIN.split(',').map(s => s.trim()).filter(Boolean)` */
  function OriginParts(setting: string): (parts: seq<string>)
    ensures forall k :: 0 <= k < |parts| ==> Clean(parts[k])
  {
    var raw := Split(setting, ',');
    SplitPartsAvoidSeparator(setting, ',');
    TrimmedEntriesCommaFree(raw);
    var parts := TrimmedEntries(raw);
    forall k | 0 <= k < |parts|
      ensures Clean(parts[k])
    {
      TrimOfTrimmed(parts[k]);
    }
    parts
  }

  /**
   * The `origin` option. `*` allows every origin; otherwise several entries
   * give the list, one entry gives that origin, and no entry disables CORS.
   * No origin handed to the plugin is empty or padded with white space.
   */
  function CorsOrigin(setting: string): (o: Origin)
    ensures setting == "*" ==> o == AllowAll
    ensures o.Single? ==> Clean(o.origin)
    ensures o.AnyOf? ==> |o.origins| >= 2 && forall k :: 0 <= k < |o.origins| ==> Clean(o.origins[k])
  {
    if setting == "*" then AllowAll
    else
      var parts := OriginParts(setting);
      if |parts| > 1 then AnyOf(parts)
      else if |parts| == 1 then Single(parts[0])
      else Disabled
  }

  /** Each raw entry trims to the origin at the same position, and no origin is empty. */
  predicate PaddedEntries(raw: seq<string>, origins: seq<string>) {
    |raw| == |origins| && forall k :: 0 <= k < |raw| ==> Trim(raw[k]) == origins[k] && origins[k] != ""
  }

  lemma PaddedTail(raw: seq<string>, origins: seq<string>)
    requires raw != [] && PaddedEntries(raw, origins)
    ensures Trim(raw[0]) == origins[0] != ""
    ensures PaddedEntries(raw[1..], origins[1..])
  {
    assert forall k :: 0 <= k < |raw[1..]| ==> raw[1..][k] == raw[k + 1] && origins[1..][k] == origins[k + 1];
  }

  /** Trimmed comma-separated entries: each entry becomes its trim, empty ones drop out. */
  lemma {:induction false} TrimmedEntriesOfPadded(raw: seq<string>, origins: seq<string>)
    requires PaddedEntries(raw, origins)
    ensures TrimmedEntries(raw) == origins
    decreases |raw|
  {
    if raw != [] {
      PaddedTail(raw, origins);
      TrimmedEntriesOfPadded(raw[1..], origins[1..]);
      assert origins == [origins[0]] + origins[1..];
    }
  }

  /**
   * A list written as comma-separated entries, with any white space around
   * each entry, is read back as the list of entries in the written order.
   */
  lemma OriginListRoundTrip(raw: seq<string>, origins: seq<string>)
    requires |origins| >= 1 && CommaFree(raw) && PaddedEntries(raw, origins)
    ensures OriginParts(Join(raw, ',')) == origins
    ensures |origins| >= 2 ==> CorsOrigin(Join(raw, ',')) == AnyOf(origins)
    ensures |origins| == 1 && raw[0] != "*" ==> CorsOrigin(Join(raw, ',')) == Single(origins[0])
  {
    OriginPartsOfJoin(raw, origins);
    if |origins| >= 2 {
      SeveralOrigins(raw, origins);
    } else if raw[0] != "*" {
      OneOrigin(raw, origins);
    }
  }

  lemma SeveralOrigins(raw: seq<string>, origins: seq<string>)
    requires |origins| >= 2 && CommaFree(raw) && PaddedEntries(raw, origins)
    ensures CorsOrigin(Join(raw, ',')) == AnyOf(origins)
  {
    OriginPartsOfJoin(raw, origins);
    JoinHasSeparator(raw, ',');
    NotAllowAll(Join(raw, ','));
  }

  /** A setting with a comma in it is not `*`. */
  lemma NotAllowAll(setting: string)
    requires ',' in setting
    ensures setting != "*"
  {
    assert ',' !in "*";
  }

  lemma OneOrigin(raw: seq<string>, origins: seq<string>)
    requires PaddedEntries(raw, origins) && CommaFree(raw) && |origins| == 1 && raw[0] != "*"
    ensures CorsOrigin(Join(raw, ',')) == Single(origins[0])
  {
    OriginPartsOfJoin(raw, origins);
  }

  lemma OriginPartsOfJoin(raw: seq<string>, origins: seq<string>)
    requires |origins| >= 1 && CommaFree(raw) && PaddedEntries(raw, origins)
    ensures OriginParts(Join(raw, ',')) == origins
  {
    SplitJoin(raw, ',');
    TrimmedEntriesOfPadded(raw, origins);
  }

  /** The first entry contributes its trim, unless that is empty, ahead of the rest. */
  lemma TrimmedEntriesCons(raw: seq<string>)
    requires raw != []
    ensures TrimmedEntries(raw) == (if Trim(raw[0]) != "" then [Trim(raw[0])] else []) + TrimmedEntries(raw[1..])
  {
  }

  /** Trimming and dropping blanks works entry by entry: it distributes over concatenation. */
  lemma {:induction false} TrimmedEntriesAppend(a: seq<string>, b: seq<string>)
    ensures TrimmedEntries(a + b) == TrimmedEntries(a) + TrimmedEntries(b)
    decreases |a|
  {
    if a != [] {
      var ab := a + b;
      assert ab[0] == a[0] && ab[1..] == a[1..] + b;
      TrimmedEntriesCons(a);
      TrimmedEntriesCons(ab);
      TrimmedEntriesAppend(a[1..], b);
    } else {
      assert a + b == b;
    }
  }

  /** A blank entry anywhere in the list (as in `a,,b` or `a, ,b`) is dropped and changes nothing else. */
  lemma BlankEntryDropped(a: seq<string>, blank: string, b: seq<string>)
    requires Trim(blank) == ""
    ensures TrimmedEntries(a + [blank] + b) == TrimmedEntries(a + b)
  {
    var one := [blank];
    BlankEntriesDropOut(one);
    TrimmedEntriesAppend(a + one, b);
    TrimmedEntriesAppend(a, one);
    TrimmedEntriesAppend(a, b);
    assert TrimmedEntries(a + one) == TrimmedEntries(a);
  }

  /**
   * A trailing comma (`https://a, https://b,`) is ignored: the setting reads
   * back as the same origins as without it.
   */
  lemma TrailingCommaIgnored(raw: seq<string>, origins: seq<string>)
    requires |origins| >= 1 && CommaFree(raw) && PaddedEntries(raw, origins)
    ensures OriginParts(Join(raw + [""], ',')) == origins
    ensures OriginParts(Join(raw + [""], ',')) == OriginParts(Join(raw, ','))
  {
    var blank: seq<string> := [""];
    var r := raw + blank;
    assert CommaFree(r) by {
      assert forall k :: 0 <= k < |raw| ==> r[k] == raw[k];
    }
    SplitJoin(r, ',');
    BlankEntriesDropOut(blank);
    TrimmedEntriesAppend(raw, blank);
    TrimmedEntriesOfPadded(raw, origins);
    assert TrimmedEntries(r) == origins;
    OriginPartsOfJoin(raw, origins);
  }

  /**
   * An empty `CORS_ORIGIN` counts as unset and allows every origin, while a
   * value made only of commas and white space disables CORS.
   */
  lemma EmptySettings(spaces: seq<string>)
    requires forall k :: 0 <= k < |spaces| ==> ',' !in spaces[k] && Trim(spaces[k]) == ""
    requires |spaces| >= 2
    ensures CorsOrigin(ConfiguredOrigin(Some(""))) == AllowAll
    ensures CorsOrigin(ConfiguredOrigin(Some(Join(spaces, ',')))) == Disabled
  {
    var setting := Join(spaces, ',');
    SplitJoin(spaces, ',');
    BlankEntriesDropOut(spaces);
    JoinHasSeparator(spaces, ',');
    assert ',' !in "*";
    assert setting != "" && setting != "*";
    assert ConfiguredOrigin(Some(setting)) == setting;
    assert OriginParts(setting) == [];
  }

  lemma {:induction false} BlankEntriesDropOut(raw: seq<string>)
    requires forall k :: 0 <= k < |raw| ==> Trim(raw[k]) == ""
    ensures TrimmedEntries(raw) == []
    decreases |raw|
  {
    if raw != [] {
      BlankEntriesDropOut(raw[1..]);
    }
  }
}
