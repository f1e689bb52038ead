/*
 * The Solr library values the merge plugin works on: documents (both the
 * incoming SolrInputDocument and the stored SolrDocument), the fields of a
 * stored Lucene document, the index schema, and the errors the library raises.
 * The library's own operations the core calls (addField, removeField,
 * getField) are modelled here as functions on these values.
 */
module Documents {

  datatype Option<+T> = None | Some(value: T)

  /** The failures the core lets propagate to its caller. */
  datatype Error =
    | UndefinedField(name: string)    // IndexSchema.getField on a name the schema does not define
    | QueryParseError(query: string)  // QueryParsing.parseQuery rejected the query text

  datatype Result<+T> = Ok(value: T) | Err(error: Error)

  /** Whether a request step completed or stopped with an exception. */
  datatype Outcome = Pass | Fail(error: Error)

  /** What the schema says about one field. */
  datatype FieldInfo = FieldInfo(multiValued: bool, copyFieldTarget: bool)

  /**
   * The index schema: the name of the unique-key field and every field it
   * declares (dynamic-field patterns are taken as already resolved into
   * `fields`).
   */
  datatype Schema = Schema(uniqueKey: string, fields: map<string, FieldInfo>)

  /** IndexSchema.getField: the field's schema entry, or an error for an undefined name. */
  function GetField(schema: Schema, name: string): (r: Result<FieldInfo>)
    ensures r.Ok? <==> name in schema.fields
    ensures r.Ok? ==> r.value == schema.fields[name]
    ensures r.Err? ==> r.error == UndefinedField(name)
  {
    if name in schema.fields then Ok(schema.fields[name]) else Err(UndefinedField(name))
  }

  /**
   * A document: its field names in insertion order (the order a
   * LinkedHashMap iterates them) and the values held under each name. A
   * single-valued field holds a one-element sequence.
   */
  datatype Doc<V> = Doc(names: seq<string>, fields: map<string, seq<V>>)

  /** A document with no fields. */
  function EmptyDoc<V>(): (d: Doc<V>)
    ensures WellFormed(d) && d.fields == map[]
  {
    Doc([], map[])
  }

  ghost predicate Distinct(s: seq<string>) {
    forall i, j :: 0 <= i < j < |s| ==> s[i] != s[j]
  }

  /** Every name appears once in the order, and the order lists exactly the fields. */
  ghost predicate WellFormed<V>(d: Doc<V>) {
    && Distinct(d.names)
    && forall n :: n in d.names <==> n in d.fields
  }

  /** The elements of `s` that are not in `drop`, in their order in `s`. */
  function Without(s: seq<string>, drop: set<string>): (r: seq<string>)
    ensures forall x :: x in r <==> x in s && x !in drop
  {
    if s == [] then []
    else
      var init := Without(s[..|s| - 1], drop);
      assert forall x :: x in s[..|s| - 1] ==> x in s;
      if s[|s| - 1] in drop then init else init + [s[|s| - 1]]
  }

  /** Filtering keeps a sequence free of repetitions. */
  lemma {:induction false} WithoutDistinct(s: seq<string>, drop: set<string>)
    requires Distinct(s)
    ensures Distinct(Without(s, drop))
  {
    if s != [] {
      var init := s[..|s| - 1];
      WithoutDistinct(init, drop);
      assert s[|s| - 1] !in init by {
        assert forall j :: 0 <= j < |init| ==> init[j] == s[j] != s[|s| - 1];
      }
    }
  }

  lemma {:induction false} WithoutNothing(s: seq<string>)
    ensures Without(s, {}) == s
  {
    if s != [] {
      WithoutNothing(s[..|s| - 1]);
    }
  }

  /** Dropping one more name from an already filtered sequence. */
  lemma {:induction false} WithoutMore(s: seq<string>, drop: set<string>, name: string)
    ensures Without(Without(s, drop), {name}) == Without(s, drop + {name})
  {
    if s != [] {
      WithoutMore(s[..|s| - 1], drop, name);
      var init := Without(s[..|s| - 1], drop);
      if s[|s| - 1] !in drop {
        assert Without(s, drop) == init + [s[|s| - 1]];
        assert (init + [s[|s| - 1]])[..|init|] == init;
      }
    }
  }

  /** Filtering a sequence that grows by one element at its end. */
  lemma WithoutSnoc(s: seq<string>, x: string, drop: set<string>)
    ensures Without(s + [x], drop) == Without(s, drop) + (if x in drop then [] else [x])
  {
    assert (s + [x])[..|s|] == s;
  }

  /** Two sequences without repetitions and without common elements concatenate to one without repetitions. */
  lemma DistinctConcat(a: seq<string>, b: seq<string>)
    requires Distinct(a) && Distinct(b)
    requires forall x :: x in a ==> x !in b
    ensures Distinct(a + b)
  {
    forall i, j | 0 <= i < j < |a + b| ensures (a + b)[i] != (a + b)[j] {
      if i < |a| <= j {
        assert (a + b)[i] in a && (a + b)[j] == b[j - |a|];
      }
    }
  }

  /**
   * SolrInputDocument.addField and SolrDocument.addField: a name not yet in
   * the document is appended to the order with the given values; a name
   * already present keeps its place and gets the values appended to its own.
   */
  function AddField<V>(d: Doc<V>, name: string, vals: seq<V>): Doc<V> {
    if name in d.fields then Doc(d.names, d.fields[name := d.fields[name] + vals])
    else Doc(d.names + [name], d.fields[name := vals])
  }

  lemma AddFieldWellFormed<V>(d: Doc<V>, name: string, vals: seq<V>)
    requires WellFormed(d)
    ensures WellFormed(AddField(d, name, vals))
  {
  }

  /** SolrInputDocument.removeField: the name leaves the order and the fields; an absent name changes nothing. */
  function RemoveField<V>(d: Doc<V>, name: string): Doc<V> {
    Doc(Without(d.names, {name}), d.fields - {name})
  }

  lemma RemoveFieldWellFormed<V>(d: Doc<V>, name: string)
    requires WellFormed(d)
    ensures WellFormed(RemoveField(d, name))
  {
    WithoutDistinct(d.names, {name});
  }

  /** One stored field of a Lucene document, in the order the document holds them; a name may repeat. */
  datatype StoredField<V> = StoredField(name: string, value: V)
}
