/*
 * MergeUtils: the merge and field-delete engine. Each operation of the
 * source builds a fresh document by a loop of addField/removeField calls and
 * never changes its inputs; here each is a method with that loop, proved
 * equal to a declarative definition of its result, and lemmas state what the
 * definition promises.
 */
module MergeUtils {
  import opened Documents

  // ---------------------------------------------------------------------------
  // merge

  /** In additive mode a multivalued incoming field keeps the stored values and receives its own after them. */
  predicate Appends(schema: Schema, overwriteMultivalues: bool, name: string) {
    !overwriteMultivalues && name in schema.fields && schema.fields[name].multiValued
  }

  /** The first of `names` that the schema does not define, if any. */
  function FirstUndefined(names: seq<string>, schema: Schema): (r: Option<string>)
    ensures r.None? <==> forall n :: n in names ==> n in schema.fields
    ensures r.Some? ==> r.value in names && r.value !in schema.fields
  {
    if names == [] then None
    else if names[0] !in schema.fields then Some(names[0])
    else FirstUndefined(names[1..], schema)
  }

  /** The names before position `i` are all defined and the one at `i` is not: it is the first undefined name. */
  lemma {:induction false} FirstUndefinedAt(names: seq<string>, schema: Schema, i: nat)
    requires i < |names| && names[i] !in schema.fields
    requires forall j :: 0 <= j < i ==> names[j] in schema.fields
    ensures FirstUndefined(names, schema) == Some(names[i])
  {
    if i > 0 {
      FirstUndefinedAt(names[1..], schema, i - 1);
    }
  }

  /** The incoming names whose stored values merge removes before adding the incoming values. */
  function Overwritten(names: seq<string>, schema: Schema, overwriteMultivalues: bool): set<string> {
    set n | n in names && !Appends(schema, overwriteMultivalues, n)
  }

  /**
   * The document `d` after addField of every incoming field in turn: a name
   * new to `d` is appended to its order with the incoming values, a name it
   * already holds gets the incoming values after its own.
   */
  function AddAll<V>(d: Doc<V>, incoming: Doc<V>): (r: Doc<V>) {
    Doc(d.names + Without(incoming.names, d.fields.Keys),
        map n | n in d.fields.Keys + incoming.fields.Keys ::
          if n !in incoming.fields then d.fields[n]
          else (if n in d.fields then d.fields[n] else []) + incoming.fields[n])
  }

  /** The document without the fields named in `dropped`, the others in their order with their values. */
  function Retained<V>(existing: Doc<V>, dropped: set<string>): Doc<V> {
    Doc(Without(existing.names, dropped), existing.fields - dropped)
  }

  lemma RetainedAll<V>(existing: Doc<V>)
    ensures Retained(existing, {}) == existing
  {
    WithoutNothing(existing.names);
    assert existing.fields - {} == existing.fields;
  }

  lemma RetainedMore<V>(existing: Doc<V>, dropped: set<string>, name: string)
    ensures RemoveField(Retained(existing, dropped), name) == Retained(existing, dropped + {name})
  {
    WithoutMore(existing.names, dropped, name);
    assert (existing.fields - dropped) - {name} == existing.fields - (dropped + {name});
  }

  lemma RetainedWellFormed<V>(existing: Doc<V>, dropped: set<string>)
    requires WellFormed(existing)
    ensures WellFormed(Retained(existing, dropped))
  {
    WithoutDistinct(existing.names, dropped);
  }

  lemma OverwrittenSnoc(names: seq<string>, x: string, schema: Schema, overwriteMultivalues: bool)
    ensures Overwritten(names + [x], schema, overwriteMultivalues) ==
      Overwritten(names, schema, overwriteMultivalues) + if Appends(schema, overwriteMultivalues, x) then {} else {x}
  {
  }

  /**
   * The result of merging `incoming` into `existing`. Only in additive mode
   * is the schema consulted, once per incoming field in order, and the first
   * undefined name is an error. Otherwise the stored fields that are not
   * appended to are removed and every incoming field is then added.
   */
  function Merged<V>(incoming: Doc<V>, existing: Doc<V>, schema: Schema, overwriteMultivalues: bool): Result<Doc<V>> {
    var undefined := FirstUndefined(incoming.names, schema);
    if !overwriteMultivalues && undefined.Some? then
      Err(UndefinedField(undefined.value))
    else
      Ok(AddAll(Retained(existing, Overwritten(incoming.names, schema, overwriteMultivalues)), incoming))
  }

  /** The first `i` fields of a document, in its order. */
  function Prefix<V>(d: Doc<V>, i: nat): Doc<V>
    requires i <= |d.names|
  {
    Doc(d.names[..i], map n | n in d.names[..i] && n in d.fields :: d.fields[n])
  }

  /** All the fields of a document are the document. */
  lemma PrefixAll<V>(d: Doc<V>)
    requires WellFormed(d)
    ensures Prefix(d, |d.names|) == d
  {
    assert d.names[..|d.names|] == d.names;
  }

  /** One more field of the prefix is one more addField. */
  lemma PrefixStep<V>(d: Doc<V>, i: nat)
    requires WellFormed(d) && i < |d.names|
    ensures Prefix(d, i + 1) == AddField(Prefix(d, i), d.names[i], d.fields[d.names[i]])
  {
    var x := d.names[i];
    assert d.names[..i + 1] == d.names[..i] + [x];
    assert x !in d.names[..i] by {
      assert forall j :: 0 <= j < i ==> d.names[j] != x;
    }
  }

  /** The first loop of merge and of delete: a copy of the stored document, field by field. */
  method CopyFields<V>(existing: Doc<V>) returns (copy: Doc<V>)
    requires WellFormed(existing)
    ensures copy == existing
  {
    copy := EmptyDoc();
    var i := 0;
    while i < |existing.names|
      invariant 0 <= i <= |existing.names|
      invariant copy == Prefix(existing, i)
    {
      var name := existing.names[i];
      PrefixStep(existing, i);
      copy := AddField(copy, name, existing.fields[name]);
      i := i + 1;
    }
    PrefixAll(existing);
  }

  /** Adding none of the incoming fields leaves the document as it is. */
  lemma AddAllNone<V>(d: Doc<V>, incoming: Doc<V>)
    requires WellFormed(d)
    ensures AddAll(d, Prefix(incoming, 0)) == d
  {
    assert AddAll(d, Prefix(incoming, 0)).fields == d.fields;
  }

  /** Adding one more incoming field is one more addField. */
  lemma AddAllStep<V>(d: Doc<V>, incoming: Doc<V>, i: nat)
    requires WellFormed(d) && WellFormed(incoming) && i < |incoming.names|
    ensures var x := incoming.names[i];
      AddAll(d, Prefix(incoming, i + 1)) == AddField(AddAll(d, Prefix(incoming, i)), x, incoming.fields[x])
  {
    var x := incoming.names[i];
    PrefixStep(incoming, i);
    AddAllStepNames(d, Prefix(incoming, i), x, incoming.fields[x]);
    AddAllStepFields(d, Prefix(incoming, i), x, incoming.fields[x]);
  }

  lemma AddAllStepNames<V>(d: Doc<V>, added: Doc<V>, x: string, vals: seq<V>)
    requires forall n :: n in added.names <==> n in added.fields
    requires x !in added.fields
    ensures AddAll(d, AddField(added, x, vals)).names == AddField(AddAll(d, added), x, vals).names
  {
    WithoutSnoc(added.names, x, d.fields.Keys);
  }

  lemma AddAllStepFields<V>(d: Doc<V>, added: Doc<V>, x: string, vals: seq<V>)
    requires x !in added.fields
    ensures AddAll(d, AddField(added, x, vals)).fields == AddField(AddAll(d, added), x, vals).fields
  {
    var after, step := AddAll(d, AddField(added, x, vals)), AddField(AddAll(d, added), x, vals);
    AddAllStepKeys(d, added, x, vals);
    forall n | n in after.fields ensures after.fields[n] == step.fields[n] {
      AddAllStepValue(d, added, x, vals, n);
    }
  }

  lemma AddAllStepKeys<V>(d: Doc<V>, added: Doc<V>, x: string, vals: seq<V>)
    requires x !in added.fields
    ensures AddAll(d, AddField(added, x, vals)).fields.Keys == AddField(AddAll(d, added), x, vals).fields.Keys
  {
    assert AddField(added, x, vals).fields.Keys == added.fields.Keys + {x};
  }

  lemma AddAllStepValue<V>(d: Doc<V>, added: Doc<V>, x: string, vals: seq<V>, n: string)
    requires x !in added.fields
    requires n in AddAll(d, AddField(added, x, vals)).fields && n in AddField(AddAll(d, added), x, vals).fields
    ensures AddAll(d, AddField(added, x, vals)).fields[n] == AddField(AddAll(d, added), x, vals).fields[n]
  {
    var grown := AddField(added, x, vals);
    assert grown.fields == added.fields[x := vals];
    var before := AddAll(d, added);
    if n == x {
      assert x in before.fields <==> x in d.fields;
    } else {
      assert AddAll(d, grown).fields[n] == before.fields[n];
    }
  }

  /** The last loop of merge: addField of every incoming field, in the incoming order. */
  method AddFields<V>(merged: Doc<V>, solrInputDocument: Doc<V>) returns (r: Doc<V>)
    requires WellFormed(merged) && WellFormed(solrInputDocument)
    ensures r == AddAll(merged, solrInputDocument)
  {
    var names := solrInputDocument.names;
    r := merged;
    AddAllNone(merged, solrInputDocument);
    var i := 0;
    while i < |names|
      invariant 0 <= i <= |names|
      invariant r == AddAll(merged, Prefix(solrInputDocument, i))
    {
      var fieldName := names[i];
      AddAllStep(merged, solrInputDocument, i);
      r := AddField(r, fieldName, solrInputDocument.fields[fieldName]);
      i := i + 1;
    }
    PrefixAll(solrInputDocument);
  }

  /** MergeUtils.merge: copy the stored fields, remove those not appended to, then add every incoming field. */
  method Merge<V>(solrInputDocument: Doc<V>, existing: Doc<V>, schema: Schema, overwriteMultivalues: bool) returns (r: Result<Doc<V>>)
    requires WellFormed(solrInputDocument) && WellFormed(existing)
    ensures r == Merged(solrInputDocument, existing, schema, overwriteMultivalues)
  {
    var names := solrInputDocument.names;
    var merged := CopyFields(existing);

    ghost var dropped: set<string> := {};
    RetainedAll(existing);
    var i := 0;
    while i < |names|
      invariant 0 <= i <= |names|
      invariant forall j :: 0 <= j < i ==> overwriteMultivalues || names[j] in schema.fields
      invariant dropped == Overwritten(names[..i], schema, overwriteMultivalues)
      invariant merged == Retained(existing, dropped)
    {
      var fieldName := names[i];
      assert names[..i + 1] == names[..i] + [fieldName];
      OverwrittenSnoc(names[..i], fieldName, schema, overwriteMultivalues);
      var leaveForAdditions := false;
      if !overwriteMultivalues {
        var sf := GetField(schema, fieldName);
        if sf.Err? {
          FirstUndefinedAt(names, schema, i);
          return Err(sf.error);
        }
        leaveForAdditions := sf.value.multiValued;
      }
      if !leaveForAdditions {
        RetainedMore(existing, dropped, fieldName);
        merged := RemoveField(merged, fieldName);
        dropped := dropped + {fieldName};
      }
      i := i + 1;
    }
    assert names[..i] == names;
    assert !overwriteMultivalues ==> FirstUndefined(names, schema).None?;
    RetainedWellFormed(existing, dropped);
    var added := AddFields(merged, solrInputDocument);
    r := Ok(added);
  }

  /** A field of the stored document that the incoming document does not name comes through with exactly its stored values. */
  lemma MergeKeepsUntouched<V>(incoming: Doc<V>, existing: Doc<V>, schema: Schema, overwriteMultivalues: bool, name: string)
    requires WellFormed(incoming)
    requires name in existing.fields && name !in incoming.fields
    requires Merged(incoming, existing, schema, overwriteMultivalues).Ok?
    ensures var r := Merged(incoming, existing, schema, overwriteMultivalues).value;
      name in r.fields && r.fields[name] == existing.fields[name]
  {
    assert name !in Overwritten(incoming.names, schema, overwriteMultivalues);
  }

  /** Adding well-formed fields to a well-formed document keeps it well formed. */
  lemma AddAllWellFormed<V>(d: Doc<V>, incoming: Doc<V>)
    requires WellFormed(d) && WellFormed(incoming)
    ensures WellFormed(AddAll(d, incoming))
  {
    WithoutDistinct(incoming.names, d.fields.Keys);
    DistinctConcat(d.names, Without(incoming.names, d.fields.Keys));
  }

  /** The merged document's fields are exactly those of the two documents together, each named once in its order. */
  lemma MergeFieldNames<V>(incoming: Doc<V>, existing: Doc<V>, schema: Schema, overwriteMultivalues: bool)
    requires WellFormed(incoming) && WellFormed(existing)
    requires Merged(incoming, existing, schema, overwriteMultivalues).Ok?
    ensures var r := Merged(incoming, existing, schema, overwriteMultivalues).value;
      && r.fields.Keys == existing.fields.Keys + incoming.fields.Keys
      && WellFormed(r)
  {
    var dropped := Overwritten(incoming.names, schema, overwriteMultivalues);
    RetainedWellFormed(existing, dropped);
    AddAllWellFormed(Retained(existing, dropped), incoming);
    assert dropped <= incoming.fields.Keys;
  }

  /** With overwriteMultivalues set, or for a field that is not multivalued, the incoming values replace the stored ones. */
  lemma MergeOverwrites<V>(incoming: Doc<V>, existing: Doc<V>, schema: Schema, overwriteMultivalues: bool, name: string)
    requires WellFormed(incoming)
    requires name in incoming.fields
    requires overwriteMultivalues || (name in schema.fields && !schema.fields[name].multiValued)
    requires Merged(incoming, existing, schema, overwriteMultivalues).Ok?
    ensures var r := Merged(incoming, existing, schema, overwriteMultivalues).value;
      name in r.fields && r.fields[name] == incoming.fields[name]
  {
    assert name in Overwritten(incoming.names, schema, overwriteMultivalues);
    assert [] + incoming.fields[name] == incoming.fields[name];
  }

  /** In additive mode a multivalued field holds the stored values followed by the incoming ones. */
  lemma MergeAppends<V>(incoming: Doc<V>, existing: Doc<V>, schema: Schema, name: string)
    requires name in incoming.fields && name in schema.fields && schema.fields[name].multiValued
    requires Merged(incoming, existing, schema, false).Ok?
    ensures var r := Merged(incoming, existing, schema, false).value;
      name in r.fields &&
      r.fields[name] == (if name in existing.fields then existing.fields[name] else []) + incoming.fields[name]
  {
    assert name !in Overwritten(incoming.names, schema, false);
  }

  /**
   * The schema is consulted only in additive mode: with overwriteMultivalues
   * set, merge never fails and does not depend on the schema; in additive
   * mode it fails exactly when an incoming name is undefined.
   */
  lemma MergeConsultsSchemaOnlyWhenAdditive<V>(incoming: Doc<V>, existing: Doc<V>, schema: Schema, other: Schema, overwriteMultivalues: bool)
    requires WellFormed(incoming)
    ensures Merged(incoming, existing, schema, true).Ok?
    ensures Merged(incoming, existing, schema, true) == Merged(incoming, existing, other, true)
    ensures Merged(incoming, existing, schema, overwriteMultivalues).Err? <==>
      !overwriteMultivalues && exists n :: n in incoming.fields && n !in schema.fields
  {
    assert Overwritten(incoming.names, schema, true) == Overwritten(incoming.names, other, true);
  }

  /** Merging a document with no fields returns the stored document unchanged. */
  lemma MergeEmptyIncoming<V>(existing: Doc<V>, schema: Schema, overwriteMultivalues: bool)
    requires WellFormed(existing)
    ensures Merged(EmptyDoc(), existing, schema, overwriteMultivalues) == Ok(existing)
  {
    var empty: Doc<V> := EmptyDoc();
    assert FirstUndefined(empty.names, schema) == None;
    assert Overwritten(empty.names, schema, overwriteMultivalues) == {};
    RetainedAll(existing);
    assert Prefix(empty, 0) == empty;
    AddAllNone(existing, empty);
  }

  /** Documents with no field in common merge to their union, in order, with the original values. */
  lemma MergeDisjoint<V>(incoming: Doc<V>, existing: Doc<V>, schema: Schema)
    requires WellFormed(incoming) && WellFormed(existing)
    requires incoming.fields.Keys !! existing.fields.Keys
    ensures Merged(incoming, existing, schema, true).Ok?
    ensures var r := Merged(incoming, existing, schema, true).value;
      && r.names == existing.names + incoming.names
      && r.fields == existing.fields + incoming.fields
  {
    var dropped := Overwritten(incoming.names, schema, true);
    RetainedDisjoint(existing, dropped);
    AddAllDisjoint(existing, incoming);
  }

  lemma RetainedDisjoint<V>(d: Doc<V>, dropped: set<string>)
    requires WellFormed(d) && d.fields.Keys !! dropped
    ensures Retained(d, dropped) == d
  {
    DisjointWithout(d.names, dropped);
    assert d.fields - dropped == d.fields;
  }

  lemma AddAllDisjoint<V>(d: Doc<V>, incoming: Doc<V>)
    requires forall n :: n in incoming.names ==> n in incoming.fields
    requires incoming.fields.Keys !! d.fields.Keys
    ensures AddAll(d, incoming) == Doc(d.names + incoming.names, d.fields + incoming.fields)
  {
    DisjointWithout(incoming.names, d.fields.Keys);
    AddAllDisjointFields(d, incoming);
  }

  lemma AddAllDisjointFields<V>(d: Doc<V>, incoming: Doc<V>)
    requires incoming.fields.Keys !! d.fields.Keys
    ensures AddAll(d, incoming).fields == d.fields + incoming.fields
  {
    var r := AddAll(d, incoming);
    assert r.fields.Keys == (d.fields + incoming.fields).Keys;
    forall n | n in r.fields ensures r.fields[n] == (d.fields + incoming.fields)[n] {
      AddAllDisjointValue(d, incoming, n);
    }
  }

  lemma AddAllDisjointValue<V>(d: Doc<V>, incoming: Doc<V>, n: string)
    requires incoming.fields.Keys !! d.fields.Keys
    requires n in d.fields || n in incoming.fields
    ensures AddAll(d, incoming).fields[n] == (d.fields + incoming.fields)[n]
  {
    if n in incoming.fields {
      assert [] + incoming.fields[n] == incoming.fields[n];
    }
  }

  /** Filtering out names none of which occur changes nothing. */
  lemma {:induction false} DisjointWithout(s: seq<string>, drop: set<string>)
    requires forall x :: x in s ==> x !in drop
    ensures Without(s, drop) == s
  {
    if s != [] {
      DisjointWithout(s[..|s| - 1], drop);
      assert s[..|s| - 1] + [s[|s| - 1]] == s;
    }
  }

  // ---------------------------------------------------------------------------
  // delete

  /** The stored document without the named fields; names it does not hold are ignored, the unique key included. */
  function Deleted<V>(deleteFields: seq<string>, existing: Doc<V>): (r: Doc<V>)
    ensures forall n :: n in r.fields <==> n in existing.fields && n !in deleteFields
    ensures forall n :: n in r.fields ==> r.fields[n] == existing.fields[n]
    ensures forall n :: n in r.names <==> n in existing.names && n !in deleteFields
  {
    Retained(existing, set n | n in deleteFields)
  }

  lemma DeletedWellFormed<V>(deleteFields: seq<string>, existing: Doc<V>)
    requires WellFormed(existing)
    ensures WellFormed(Deleted(deleteFields, existing))
  {
    RetainedWellFormed(existing, set n | n in deleteFields);
  }

  lemma NamesSnoc(names: seq<string>, x: string)
    ensures (set n | n in names + [x]) == (set n | n in names) + {x}
  {
  }

  /** MergeUtils.delete: copy the stored fields, then remove each named field in turn. */
  method Delete<V>(deleteFields: seq<string>, existing: Doc<V>) returns (merged: Doc<V>)
    requires WellFormed(existing)
    ensures merged == Deleted(deleteFields, existing)
  {
    merged := CopyFields(existing);
    ghost var removed: set<string> := {};
    RetainedAll(existing);
    for i := 0 to |deleteFields|
      invariant removed == set n | n in deleteFields[..i]
      invariant merged == Retained(existing, removed)
    {
      var name := deleteFields[i];
      assert deleteFields[..i + 1] == deleteFields[..i] + [name];
      NamesSnoc(deleteFields[..i], name);
      RetainedMore(existing, removed, name);
      merged := RemoveField(merged, name);
      removed := removed + {name};
    }
    assert deleteFields[..|deleteFields|] == deleteFields;
  }

  /** Deleting no fields, or only fields the document does not hold, leaves it unchanged. */
  lemma DeleteNothing<V>(deleteFields: seq<string>, existing: Doc<V>)
    requires WellFormed(existing)
    requires forall n :: n in deleteFields ==> n !in existing.fields
    ensures Deleted(deleteFields, existing) == existing
  {
    var drop := set n | n in deleteFields;
    DisjointWithout(existing.names, drop);
    assert existing.fields - drop == existing.fields;
  }

  // ---------------------------------------------------------------------------
  // deleteFields

  /** The text split at every comma, keeping every token, empty ones included. */
  function SplitAll(s: string): (tokens: seq<string>)
    ensures |tokens| >= 1
    ensures forall t :: t in tokens ==> ',' !in t
  {
    if s == [] then [""]
    else
      var rest := SplitAll(s[1..]);
      if s[0] == ',' then [""] + rest else [[s[0]] + rest[0]] + rest[1..]
  }

  /** The tokens joined back together with a comma between neighbours. */
  function JoinWithCommas(tokens: seq<string>): string
    requires |tokens| >= 1
  {
    if |tokens| == 1 then tokens[0] else tokens[0] + "," + JoinWithCommas(tokens[1..])
  }

  /** Joining the tokens of a split gives back the text. */
  lemma {:induction false} JoinSplitAll(s: string)
    ensures JoinWithCommas(SplitAll(s)) == s
  {
    if s != [] {
      var rest := SplitAll(s[1..]);
      JoinSplitAll(s[1..]);
      if s[0] == ',' {
        assert ([""] + rest)[1..] == rest;
      } else if |rest| > 1 {
        assert ([[s[0]] + rest[0]] + rest[1..])[1..] == rest[1..];
      }
    }
  }

  /** A comma-free token followed by a comma splits off as the first token. */
  lemma {:induction false} SplitAllAfterToken(t: string, rest: string)
    requires ',' !in t
    ensures SplitAll(t + "," + rest) == [t] + SplitAll(rest)
  {
    if t != [] {
      SplitAllAfterToken(t[1..], rest);
      var s := t + "," + rest;
      assert s[0] == t[0] && s[1..] == t[1..] + "," + rest;
      var tail := SplitAll(s[1..]);
      assert tail == [t[1..]] + SplitAll(rest);
      assert [s[0]] + tail[0] == t;
      assert SplitAll(s) == [[s[0]] + tail[0]] + tail[1..];
    } else {
      assert ("" + "," + rest)[1..] == rest;
    }
  }

  /** A comma-free text is one token. */
  lemma {:induction false} SplitAllToken(t: string)
    requires ',' !in t
    ensures SplitAll(t) == [t]
  {
    if t != [] {
      SplitAllToken(t[1..]);
      assert [t[0]] + t[1..] == t;
    }
  }

  /** Splitting comma-free tokens joined with commas gives back the tokens. */
  lemma {:induction false} SplitAllJoin(tokens: seq<string>)
    requires |tokens| >= 1
    requires forall t :: t in tokens ==> ',' !in t
    ensures SplitAll(JoinWithCommas(tokens)) == tokens
  {
    if |tokens| == 1 {
      SplitAllToken(tokens[0]);
    } else {
      SplitAllJoin(tokens[1..]);
      SplitAllAfterToken(tokens[0], JoinWithCommas(tokens[1..]));
    }
  }

  /** The tokens without the empty tokens at their end. */
  function StripTrailingEmpty(tokens: seq<string>): (r: seq<string>)
    ensures r <= tokens
    ensures r == [] || r[|r| - 1] != ""
    ensures forall k :: |r| <= k < |tokens| ==> tokens[k] == ""
  {
    if tokens == [] || tokens[|tokens| - 1] != "" then tokens
    else StripTrailingEmpty(tokens[..|tokens| - 1])
  }

  /**
   * Java's String.split(","): a text without a comma is its own single
   * token (so "" gives [""]); otherwise every comma separates and the empty
   * tokens at the end are dropped (so "," gives []), while leading and inner
   * empty tokens are kept.
   */
  function Split(s: string): (tokens: seq<string>)
    ensures forall t :: t in tokens ==> ',' !in t
  {
    if ',' !in s then [s] else StripTrailingEmpty(SplitAll(s))
  }

  /** An empty parameter is one empty name. */
  lemma SplitEmpty()
    ensures Split("") == [""]
  {
  }

  /** A lone comma gives no names at all. */
  lemma SplitLoneComma()
    ensures Split(",") == []
  {
    SplitAllAfterToken("", "");
    SplitAllToken("");
    assert "," == "" + "," + "";
    assert ","[0] == ',';
  }

  lemma SplitTwoNames()
    ensures Split("a,b") == ["a", "b"]
  {
    SplitAllToken("b");
    assert "a,b" == "a" + "," + "b";
    SplitAllAfterToken("a", "b");
    assert "a,b"[1] == ',';
  }

  /** Inner empty tokens stay, trailing ones go. */
  lemma SplitDropsTrailingEmpty()
    ensures Split("a,,b,") == ["a", "", "b"]
  {
    SplitAllToken("");
    assert "b," == "b" + "," + "";
    SplitAllAfterToken("b", "");
    assert ",b," == "" + "," + "b,";
    SplitAllAfterToken("", "b,");
    assert "a,,b," == "a" + "," + ",b,";
    SplitAllAfterToken("a", ",b,");
    assert SplitAll("a,,b,") == ["a", "", "b", ""];
    assert "a,,b,"[1] == ',';
  }

  /** Every parameter split on commas, in parameter order and then token order, duplicates kept. */
  function SplitEach(parameters: seq<string>): seq<string> {
    if parameters == [] then [] else Split(parameters[0]) + SplitEach(parameters[1..])
  }

  /** Splitting two runs of parameters is splitting each and concatenating. */
  lemma {:induction false} SplitEachAppend(a: seq<string>, b: seq<string>)
    ensures SplitEach(a + b) == SplitEach(a) + SplitEach(b)
  {
    if a == [] {
      assert a + b == b;
    } else {
      calc {
        SplitEach(a + b);
        { assert a + b != []; }
        Split((a + b)[0]) + SplitEach((a + b)[1..]);
        { assert (a + b)[0] == a[0] && (a + b)[1..] == a[1..] + b; }
        Split(a[0]) + SplitEach(a[1..] + b);
        { SplitEachAppend(a[1..], b); }
        Split(a[0]) + (SplitEach(a[1..]) + SplitEach(b));
        SplitEach(a) + SplitEach(b);
      }
    }
  }

  /** MergeUtils.deleteFields: the delete.field parameters (none when absent) flattened into one list of names. */
  method DeleteFields(parameters: seq<string>) returns (deleteFields: seq<string>)
    ensures deleteFields == SplitEach(parameters)
  {
    deleteFields := [];
    for i := 0 to |parameters|
      invariant deleteFields == SplitEach(parameters[..i])
    {
      SplitEachAppend(parameters[..i], [parameters[i]]);
      assert parameters[..i + 1] == parameters[..i] + [parameters[i]];
      deleteFields := deleteFields + Split(parameters[i]);
    }
    assert parameters[..|parameters|] == parameters;
  }

  lemma DeleteFieldsExample()
    ensures SplitEach(["a,b", "c"]) == ["a", "b", "c"]
  {
    SplitAllToken("a");
    SplitAllToken("b");
    SplitAllAfterToken("a", "b");
    assert "a,b" == "a" + "," + "b";
    assert "a,b"[1] == ',';
    assert Split("a,b") == ["a", "b"];
    assert Split("c") == ["c"];
    assert ["a,b", "c"][1..] == ["c"];
    assert ["c"][1..] == [];
  }

  // ---------------------------------------------------------------------------
  // toSolrDocument

  /** The names of the stored fields, in stored order. */
  function NamesOf<V>(stored: seq<StoredField<V>>): (names: seq<string>)
    ensures |names| == |stored| && forall k :: 0 <= k < |stored| ==> names[k] == stored[k].name
  {
    seq(|stored|, k requires 0 <= k < |stored| => stored[k].name)
  }

  /** The values stored under `name`, in stored order. */
  function StoredValues<V>(stored: seq<StoredField<V>>, name: string): seq<V> {
    if stored == [] then []
    else StoredValues(stored[..|stored| - 1], name) + if stored[|stored| - 1].name == name then [stored[|stored| - 1].value] else []
  }

  /** The names of `s` in the order of their first occurrence. */
  function FirstOccurrences(s: seq<string>): (r: seq<string>)
    ensures forall x :: x in r <==> x in s
    ensures Distinct(r)
  {
    if s == [] then []
    else
      var init := FirstOccurrences(s[..|s| - 1]);
      assert forall x :: x in s[..|s| - 1] ==> x in s;
      if s[|s| - 1] in init then init else init + [s[|s| - 1]]
  }

  /** The schema's copy-field targets. */
  function CopyFieldTargets(schema: Schema): set<string> {
    set n | n in schema.fields && schema.fields[n].copyFieldTarget
  }

  /**
   * The document MergeUtils.toSolrDocument rebuilds from a stored Lucene
   * document, stored field by stored field; the field-type conversion of
   * each value is the identity here.
   */
  function SolrDocumentOf<V>(stored: seq<StoredField<V>>, schema: Schema): (r: Result<Doc<V>>)
    ensures r.Ok? ==> WellFormed(r.value)
  {
    if stored == [] then Ok(EmptyDoc())
    else match SolrDocumentOf(stored[..|stored| - 1], schema)
      case Err(e) => Err(e)
      case Ok(doc) =>
        var f := stored[|stored| - 1];
        match GetField(schema, f.name)
        case Err(e) => Err(e)
        case Ok(sf) =>
          if sf.copyFieldTarget then Ok(doc)
          else AddFieldWellFormed(doc, f.name, [f.value]); Ok(AddField(doc, f.name, [f.value]))
  }

  /** MergeUtils.toSolrDocument and addFields: look every stored field up in the schema and add those that are not copy-field targets. */
  method ToSolrDocument<V>(luceneDoc: seq<StoredField<V>>, schema: Schema) returns (r: Result<Doc<V>>)
    ensures r == SolrDocumentOf(luceneDoc, schema)
  {
    var doc := EmptyDoc();
    var i := 0;
    while i < |luceneDoc|
      invariant 0 <= i <= |luceneDoc|
      invariant SolrDocumentOf(luceneDoc[..i], schema) == Ok(doc)
    {
      var f := luceneDoc[i];
      assert luceneDoc[..i + 1][..i] == luceneDoc[..i];
      var sf := GetField(schema, f.name);
      if sf.Err? {
        assert SolrDocumentOf(luceneDoc[..i + 1], schema).Err?;
        UndefinedStoredField(luceneDoc, schema, i + 1);
        return Err(sf.error);
      }
      if !sf.value.copyFieldTarget {
        doc := AddField(doc, f.name, [f.value]);
      }
      i := i + 1;
    }
    assert luceneDoc[..i] == luceneDoc;
    r := Ok(doc);
  }

  /** Once a prefix of the stored fields fails, the whole document fails with the same error. */
  lemma {:induction false} UndefinedStoredField<V>(stored: seq<StoredField<V>>, schema: Schema, i: nat)
    requires i <= |stored|
    requires SolrDocumentOf(stored[..i], schema).Err?
    ensures SolrDocumentOf(stored, schema) == SolrDocumentOf(stored[..i], schema)
    decreases |stored| - i
  {
    if i < |stored| {
      assert stored[..i + 1][..i] == stored[..i];
      UndefinedStoredField(stored, schema, i + 1);
    } else {
      assert stored[..i] == stored;
    }
  }

  /** The stored names of a sequence grown by one field at its end. */
  lemma NamesOfSnoc<V>(stored: seq<StoredField<V>>)
    requires stored != []
    ensures NamesOf(stored) == NamesOf(stored[..|stored| - 1]) + [stored[|stored| - 1].name]
  {
  }

  /** Rebuilding fails exactly when a stored name is undefined, and then with the first such name. */
  lemma {:induction false} SolrDocumentError<V>(stored: seq<StoredField<V>>, schema: Schema)
    ensures var r := SolrDocumentOf(stored, schema);
      && (r.Err? <==> FirstUndefined(NamesOf(stored), schema).Some?)
      && (r.Err? ==> r.error == UndefinedField(FirstUndefined(NamesOf(stored), schema).value))
  {
    if stored != [] {
      var init := stored[..|stored| - 1];
      SolrDocumentError(init, schema);
      NamesOfSnoc(stored);
      FirstUndefinedSnoc(NamesOf(init), stored[|stored| - 1].name, schema);
    }
  }

  /** The rebuilt document holds exactly the stored names that are not copy-field targets. */
  lemma {:induction false} SolrDocumentNames<V>(stored: seq<StoredField<V>>, schema: Schema)
    requires SolrDocumentOf(stored, schema).Ok?
    ensures var d := SolrDocumentOf(stored, schema).value;
      && (forall n :: n in d.fields <==> n in NamesOf(stored) && n !in CopyFieldTargets(schema))
      && d.names == FirstOccurrences(Without(NamesOf(stored), CopyFieldTargets(schema)))
  {
    if stored != [] {
      var init := stored[..|stored| - 1];
      var f := stored[|stored| - 1];
      SolrDocumentNames(init, schema);
      NamesOfSnoc(stored);
      WithoutSnoc(NamesOf(init), f.name, CopyFieldTargets(schema));
      var kept := Without(NamesOf(init), CopyFieldTargets(schema));
      if f.name !in CopyFieldTargets(schema) {
        assert (kept + [f.name])[..|kept|] == kept;
      }
    }
  }

  /** Under each name the rebuilt document holds every value stored under it, in stored order. */
  lemma {:induction false} SolrDocumentValues<V>(stored: seq<StoredField<V>>, schema: Schema)
    requires SolrDocumentOf(stored, schema).Ok?
    ensures var d := SolrDocumentOf(stored, schema).value;
      forall n :: n in d.fields ==> d.fields[n] == StoredValues(stored, n)
  {
    if stored != [] {
      var init := stored[..|stored| - 1];
      var f := stored[|stored| - 1];
      SolrDocumentValues(init, schema);
      SolrDocumentNames(init, schema);
      NamesOfSnoc(stored);
      var doc := SolrDocumentOf(init, schema).value;
      var d := SolrDocumentOf(stored, schema).value;
      assert f.name in schema.fields;
      var copy := schema.fields[f.name].copyFieldTarget;
      assert d == if copy then doc else AddField(doc, f.name, [f.value]);
      forall n | n in d.fields ensures d.fields[n] == StoredValues(stored, n) {
        assert StoredValues(stored, n) == StoredValues(init, n) + if f.name == n then [f.value] else [];
        if n == f.name && !copy && n !in doc.fields {
          assert n !in CopyFieldTargets(schema);
          StoredValuesAbsent(init, n);
        }
      }
    }
  }

  /** A name that is not stored has no stored values. */
  lemma {:induction false} StoredValuesAbsent<V>(stored: seq<StoredField<V>>, name: string)
    requires name !in NamesOf(stored)
    ensures StoredValues(stored, name) == []
  {
    if stored != [] {
      NamesOfSnoc(stored);
      StoredValuesAbsent(stored[..|stored| - 1], name);
    }
  }

  /** The first undefined name of a sequence grown by one name at its end. */
  lemma {:induction false} FirstUndefinedSnoc(names: seq<string>, x: string, schema: Schema)
    ensures FirstUndefined(names + [x], schema) ==
      if FirstUndefined(names, schema).Some? then FirstUndefined(names, schema)
      else if x !in schema.fields then Some(x) else None
  {
    if names != [] {
      FirstUndefinedSnoc(names[1..], x, schema);
      assert (names + [x])[1..] == names[1..] + [x];
    }
  }

  /** No copy-field target of the schema ever appears in a rebuilt document. */
  lemma NoCopyFieldTargets<V>(stored: seq<StoredField<V>>, schema: Schema)
    requires SolrDocumentOf(stored, schema).Ok?
    ensures forall n :: n in SolrDocumentOf(stored, schema).value.fields ==> n in schema.fields && !schema.fields[n].copyFieldTarget
  {
    SolrDocumentError(stored, schema);
    SolrDocumentNames(stored, schema);
  }

  // ---------------------------------------------------------------------------
  // withoutId and addCommandFor

  /**
   * MergeUtils.withoutId, whose body is not part of this model: taken to be
   * the document without the schema's unique-key field, everything else as
   * it was.
   */
  function WithoutId<V>(d: Doc<V>, schema: Schema): (r: Doc<V>)
    ensures schema.uniqueKey !in r.fields
    ensures forall n :: n in r.fields <==> n in d.fields && n != schema.uniqueKey
    ensures forall n :: n in r.fields ==> r.fields[n] == d.fields[n]
  {
    RemoveField(d, schema.uniqueKey)
  }

  /** An add command as the downstream processor receives it. */
  datatype AddCommand<V> = AddCommand(solrDoc: Doc<V>, overwriteCommitted: bool)

  /** MergeUtils.addCommandFor: a new add command for the document, marked to overwrite committed versions. */
  function AddCommandFor<V>(solrDoc: Doc<V>): (c: AddCommand<V>)
    ensures c.solrDoc == solrDoc && c.overwriteCommitted
  {
    AddCommand(solrDoc, true)
  }
}
