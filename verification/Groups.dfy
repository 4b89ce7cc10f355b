/**
 * User groups: the SAML provider flattens each attribute's values into one text, and the identity handler
 * splits that text again and maps the groups it finds.
 */
module Groups {
  import opened Wrappers
  import opened Sequences

  /** What a provider may put under a claim: a text, or a list of texts. */
  datatype Claim = Text(text: string) | Texts(texts: seq<string>)

  datatype Attribute = Attribute(name: string, values: seq<string>)

  // ---------- flattening attributes (SAML) ----------

  /** Every value with a space after it. */
  function Spaced(values: seq<string>): (s: string)
  {
    if values == [] then "" else Spaced(values[..|values| - 1]) + (values[|values| - 1] + " ")
  }

  /** strings.TrimSuffix(s, " "). */
  function TrimSpace(s: string): (r: string)
  {
    if s != "" && s[|s| - 1] == ' ' then s[..|s| - 1] else s
  }

  /** Flattening is joining with single spaces. */
  lemma {:induction false} SpacedIsJoin(values: seq<string>)
    ensures values != [] ==> Spaced(values) == Join(values, " ") + " "
    ensures TrimSpace(Spaced(values)) == Join(values, " ")
  {
    if 1 < |values| {
      var n := |values| - 1;
      SpacedIsJoin(values[..n]);
      assert values == values[..n] + [values[n]];
      JoinConcat(values[..n], [values[n]], " ");
      Assoc(Join(values[..n], " "), " ", values[n]);
      Assoc(Join(values[..n], " ") + " ", values[n], " ");
    }
  }

  /** What one more attribute does to the claims: the last one of a name wins. */
  function Claims(atts: seq<Attribute>): (m: map<string, string>)
  {
    if atts == [] then map[]
    else
      var last := atts[|atts| - 1];
      Claims(atts[..|atts| - 1])[last.name := Join(last.values, " ")]
  }

  /** The innermost loop: a string builder, trimmed. */
  method FlattenValues(values: seq<string>) returns (text: string)
    ensures text == Join(values, " ")
  {
    var str := "";
    for k := 0 to |values|
      invariant str == Spaced(values[..k])
    {
      assert values[..k + 1][..k] == values[..k];
      str := str + (values[k] + " ");
    }
    assert values[..|values|] == values;
    SpacedIsJoin(values);
    text := TrimSpace(str);
  }

  /** The attributes of one statement, on top of the claims of the statements before. */
  method FlattenStatement(before: map<string, string>, atts: seq<Attribute>, ghost earlier: seq<Attribute>)
    returns (rawData: map<string, string>)
    requires before == Claims(earlier)
    ensures rawData == Claims(earlier + atts)
  {
    rawData := before;
    assert earlier + atts[..0] == earlier;
    for j := 0 to |atts|
      invariant rawData == Claims(earlier + atts[..j])
    {
      var att := atts[j];
      rawData := rawData[att.name := ""];
      var text := FlattenValues(att.values);
      rawData := rawData[att.name := text];
      assert earlier + atts[..j + 1] == earlier + atts[..j] + [att];
      ClaimsSnoc(earlier + atts[..j], att);
    }
    assert atts[..|atts|] == atts;
  }

  /** The attribute loop of SAMLProvider.HandleCallback, over the statements of an assertion. */
  method FlattenAttributes(statements: seq<seq<Attribute>>) returns (rawData: map<string, string>)
    ensures rawData == Claims(Flatten(statements))
  {
    rawData := map[];
    for i := 0 to |statements|
      invariant rawData == Claims(Flatten(statements[..i]))
    {
      FlattenSnoc(statements, i);
      rawData := FlattenStatement(rawData, statements[i], Flatten(statements[..i]));
    }
    assert statements[..|statements|] == statements;
  }

  lemma ClaimsSnoc(atts: seq<Attribute>, att: Attribute)
    ensures Claims(atts + [att]) == Claims(atts)[att.name := Join(att.values, " ")]
  {
    assert (atts + [att])[..|atts|] == atts;
  }

  lemma {:induction false} FlattenConcat<T>(a: seq<seq<T>>, b: seq<seq<T>>)
    ensures Flatten(a + b) == Flatten(a) + Flatten(b)
  {
    if a == [] {
      assert a + b == b;
    } else {
      FlattenConcat(a[1..], b);
      assert (a + b)[1..] == a[1..] + b;
      Assoc(a[0], Flatten(a[1..]), Flatten(b));
    }
  }

  lemma FlattenSnoc<T>(a: seq<seq<T>>, i: nat)
    requires i < |a|
    ensures Flatten(a[..i + 1]) == Flatten(a[..i]) + a[i]
  {
    assert a[..i + 1] == a[..i] + [a[i]];
    FlattenConcat(a[..i], [a[i]]);
    assert Flatten([a[i]]) == a[i] + Flatten([]) && a[i] + Flatten([]) == a[i];
  }

  /** The claim of a name is the join of the values of its last attribute. */
  lemma {:induction false} LastAttributeWins(atts: seq<Attribute>, at: nat)
    requires at < |atts| && forall i :: at < i < |atts| ==> atts[i].name != atts[at].name
    ensures atts[at].name in Claims(atts) && Claims(atts)[atts[at].name] == Join(atts[at].values, " ")
  {
    var n := |atts| - 1;
    if at < n {
      LastAttributeWins(atts[..n], at);
    }
  }

  /** There are claims of the names of attributes, and no others. */
  lemma {:induction false} ClaimsAreAttributes(atts: seq<Attribute>, name: string)
    ensures name in Claims(atts) <==> exists i :: 0 <= i < |atts| && atts[i].name == name
  {
    if atts != [] {
      var n := |atts| - 1;
      ClaimsAreAttributes(atts[..n], name);
      if i :| 0 <= i < |atts| && atts[i].name == name {
        assert i < n ==> atts[..n][i] == atts[i];
      }
    }
  }

  // ---------- splitting and mapping ----------

  /** A text is split at spaces unless a separator is configured. */
  function Effective(separator: string): (sep: string)
    ensures sep != ""
  {
    if separator == "" then " " else separator
  }

  function GroupsOf(c: Claim, separator: string): (groups: seq<string>)
  {
    match c
    case Texts(v) => v
    case Text(s) => Split(s, Effective(separator))
  }

  /** groupsStringer: a list is taken as it is; a text is cut into separator-free pieces that join to it again. */
  method GroupsStringer(c: Claim, separator: string) returns (groups: seq<string>)
    ensures groups == GroupsOf(c, separator)
    ensures c.Texts? ==> groups == c.texts
    ensures c.Text? ==> Join(groups, if separator == "" then " " else separator) == c.text
    ensures c.Text? ==> var sep := if separator == "" then " " else separator;
      forall g, k: nat :: g in groups ==> !OccursAt(g, sep, k)
  {
    match c
    case Texts(v) =>
      groups := [];
      for i := 0 to |v|
        invariant groups == v[..i]
      {
        groups := groups + [v[i]];
      }
    case Text(s) =>
      groups := Split(s, Effective(separator));
      JoinSplit(s, Effective(separator));
      SplitPieces(s, Effective(separator));
  }

  function DefaultOrEmpty(defaultGroup: string): seq<string>
  {
    if defaultGroup == "" then [] else [defaultGroup]
  }

  /** The images of the groups that are mapped, in order. */
  function Mapped(groups: seq<string>, mapping: map<string, string>): (ids: seq<string>)
  {
    if groups == [] then []
    else
      var n := |groups| - 1;
      Mapped(groups[..n], mapping) + if groups[n] in mapping then [mapping[groups[n]]] else []
  }

  function MappedOrDefault(groups: seq<string>, mapping: map<string, string>, defaultGroup: string): seq<string>
  {
    if Mapped(groups, mapping) == [] then DefaultOrEmpty(defaultGroup) else Mapped(groups, mapping)
  }

  /**
   * GetGroupId: the images of the mapped groups, in the order of the groups; the default, if there is one, for a
   * missing field, a missing or nil claim, and a claim none of whose groups is mapped. `picks` says which groups
   * were mapped.
   */
  method GetGroupId(
    rawData: map<string, Option<Claim>>,
    field: string,
    defaultGroup: string,
    mapping: map<string, string>,
    separator: string)
    returns (ids: seq<string>, ghost picks: seq<nat>)
    ensures var claimed := field != "" && field in rawData && rawData[field].Some?;
      var groups := if claimed then GroupsOf(rawData[field].value, separator) else [];
      && (forall k :: 0 <= k < |picks| ==> picks[k] < |groups| && groups[picks[k]] in mapping)
      && (forall j, k :: 0 <= j < k < |picks| ==> picks[j] < picks[k])
      && (forall i :: 0 <= i < |groups| && groups[i] in mapping ==> i in picks)
      && (picks == [] ==> ids == if defaultGroup == "" then [] else [defaultGroup])
      && (picks != [] ==> |ids| == |picks| && forall k :: 0 <= k < |picks| ==> ids[k] == mapping[groups[picks[k]]])
    ensures ids ==
      if field == "" || field !in rawData || rawData[field].None? then DefaultOrEmpty(defaultGroup)
      else MappedOrDefault(GroupsOf(rawData[field].value, separator), mapping, defaultGroup)
  {
    picks := [];
    if field == "" {
      ids := DefaultOrEmpty(defaultGroup);
      return;
    }
    if field !in rawData || rawData[field].None? {
      ids := DefaultOrEmpty(defaultGroup);
      return;
    }
    var groups := GroupsStringer(rawData[field].value, separator);
    if |groups| == 0 {
      ids := DefaultOrEmpty(defaultGroup);
      return;
    }
    ids, picks := MapGroups(groups, mapping);
    if |ids| == 0 {
      ids := DefaultOrEmpty(defaultGroup);
    }
  }

  /** Its loop. */
  method MapGroups(groups: seq<string>, mapping: map<string, string>) returns (ids: seq<string>, ghost picks: seq<nat>)
    ensures ids == Mapped(groups, mapping)
    ensures PicksUpTo(picks, groups, mapping, |groups|)
    ensures |ids| == |picks| && forall k :: 0 <= k < |picks| ==> ids[k] == mapping[groups[picks[k]]]
  {
    ids, picks := [], [];
    for i := 0 to |groups|
      invariant ids == Mapped(groups[..i], mapping)
      invariant PicksUpTo(picks, groups, mapping, i)
      invariant |ids| == |picks| && forall k :: 0 <= k < |picks| ==> ids[k] == mapping[groups[picks[k]]]
    {
      assert groups[..i + 1][..i] == groups[..i];
      if groups[i] in mapping {
        ids := ids + [mapping[groups[i]]];
        picks := picks + [i];
      }
    }
    assert groups[..|groups|] == groups;
  }

  /** `picks` are the places of the mapped ones among the first `n` groups, ascending. */
  ghost predicate PicksUpTo(picks: seq<nat>, groups: seq<string>, mapping: map<string, string>, n: nat)
    requires n <= |groups|
  {
    && (forall k :: 0 <= k < |picks| ==> picks[k] < n && groups[picks[k]] in mapping)
    && (forall j, k :: 0 <= j < k < |picks| ==> picks[j] < picks[k])
    && (forall i :: 0 <= i < n && groups[i] in mapping ==> i in picks)
  }

  /** A group ID is granted exactly when some group of the user maps to it. */
  lemma {:induction false} MappedIsImage(groups: seq<string>, mapping: map<string, string>, id: string)
    ensures id in Mapped(groups, mapping) <==>
      exists i :: 0 <= i < |groups| && groups[i] in mapping && mapping[groups[i]] == id
  {
    if groups != [] {
      var n := |groups| - 1;
      MappedIsImage(groups[..n], mapping, id);
      if i :| 0 <= i < |groups| && groups[i] in mapping && mapping[groups[i]] == id {
        assert i < n ==> groups[..n][i] == groups[i];
      }
    }
  }

  // ---------- the whole pipeline ----------

  /** The words of a list of values: each value cut at spaces. */
  function Words(values: seq<string>): (words: seq<string>)
  {
    Flatten(seq(|values|, i requires 0 <= i < |values| => Split(values[i], " ")))
  }

  /** Re-splitting a flattened attribute yields the words of its values, in order. */
  lemma SplitFlattened(values: seq<string>, separator: string)
    requires values != [] && Effective(separator) == " "
    ensures GroupsOf(Text(Join(values, " ")), separator) == Words(values)
  {
    SplitJoin(values, ' ');
  }

  lemma {:induction false} WordsOfPlain(values: seq<string>)
    requires forall v :: v in values ==> ' ' !in v
    ensures Words(values) == values
  {
    var pieces := seq(|values|, i requires 0 <= i < |values| => Split(values[i], " "));
    if values != [] {
      var rest := values[1..];
      WordsOfPlain(rest);
      SplitPlain(values[0], ' ');
      assert pieces[1..] == seq(|rest|, i requires 0 <= i < |rest| => Split(rest[i], " "));
      assert values == [values[0]] + rest;
    }
  }

  lemma {:induction false} WordsAreMore(values: seq<string>)
    ensures |Words(values)| >= |values|
    ensures (exists v :: v in values && ' ' in v) ==> |Words(values)| > |values|
  {
    var pieces := seq(|values|, i requires 0 <= i < |values| => Split(values[i], " "));
    if values != [] {
      var rest := values[1..];
      WordsAreMore(rest);
      assert pieces[1..] == seq(|rest|, i requires 0 <= i < |rest| => Split(rest[i], " "));
      if ' ' in values[0] {
        SplitHasTwo(values[0], ' ');
      }
    }
  }

  /** The condition under which the groups of an attribute come back as they were sent. */
  ghost predicate ComeBack(values: seq<string>, separator: string)
  {
    if Effective(separator) == " " then values != [] && forall v :: v in values ==> ' ' !in v
    else |values| == 1 && forall k: nat :: !OccursAt(values[0], Effective(separator), k)
  }

  /**
   * With spaces as separator they do exactly when there are any and none has a space in it; with any other
   * separator exactly when there is one, without a separator in it.
   */
  lemma GroupsSurviveExactlyWhen(values: seq<string>, separator: string)
    ensures GroupsOf(Text(Join(values, " ")), separator) == values <==> ComeBack(values, separator)
  {
    if values == [] {
      EmptyAttribute(separator);
    } else if Effective(separator) == " " {
      SurviveSpaces(values, separator);
    } else if |values| == 1 {
      SplitWhole(values[0], Effective(separator));
    } else if GroupsOf(Text(Join(values, " ")), separator) == values {
      JoinSplit(Join(values, " "), Effective(separator));
      JoinsDiffer(values, Effective(separator));
    }
  }

  lemma SurviveSpaces(values: seq<string>, separator: string)
    requires values != [] && Effective(separator) == " "
    ensures GroupsOf(Text(Join(values, " ")), separator) == values <==> forall v :: v in values ==> ' ' !in v
  {
    SplitFlattened(values, separator);
    WordsAreMore(values);
    if forall v :: v in values ==> ' ' !in v {
      WordsOfPlain(values);
    }
  }

  lemma {:induction false} JoinLength(values: seq<string>, sep: string)
    requires values != [] && sep != ""
    ensures |Join(values, sep)| >= |Join(values, " ")|
    ensures 1 < |values| && 1 < |sep| ==> |Join(values, sep)| > |Join(values, " ")|
  {
    if 1 < |values| {
      JoinLength(values[1..], sep);
    }
  }

  /** Two or more values joined with spaces are not what another separator would join them to. */
  lemma JoinsDiffer(values: seq<string>, sep: string)
    requires 2 <= |values| && sep != "" && sep != " "
    ensures Join(values, sep) != Join(values, " ")
  {
    JoinLength(values, sep);
    if |sep| == 1 {
      var n := |values[0]|;
      assert Join(values, sep)[n] == sep[0] && Join(values, " ")[n] == ' ';
      assert sep == [sep[0]];
    }
  }

  /** For groups that come back the SAML detour grants what mapping the list itself would. */
  lemma SamlGroupsAsListed(values: seq<string>, separator: string, mapping: map<string, string>, defaultGroup: string)
    requires ComeBack(values, separator)
    ensures MappedOrDefault(GroupsOf(Text(Join(values, " ")), separator), mapping, defaultGroup)
         == MappedOrDefault(GroupsOf(Texts(values), separator), mapping, defaultGroup)
  {
    GroupsSurviveExactlyWhen(values, separator);
  }

  /** An attribute without values is not the empty list: it comes back as the one group "". */
  lemma EmptyAttribute(separator: string)
    ensures GroupsOf(Text(Join([], " ")), separator) == [""]
  {
    SplitWhole("", Effective(separator));
  }
}
