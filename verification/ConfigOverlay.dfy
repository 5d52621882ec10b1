/** Local configuration and the central configuration laid over it (config.go).

    A field is named by its environment variable, and values are what the parsers make of the
    strings; which strings a parser accepts is left open.  Each update is one atomic step. */
module ConfigValues {
  import opened Basics

  /** How keys name environment variables, and the parsers of their values: no value for an
      unsupported variable or a string that does not parse. */
  datatype Schema = Schema(env: string -> string, parse: (string, string) -> Option<string>)

  /** Keys that name the same variable, if there are any, have the same value for it. */
  predicate Consistent(c: Schema, attrs: map<string, string>) {
    forall j, k :: j in attrs && k in attrs && c.env(j) == c.env(k) ==>
      c.parse(c.env(j), attrs[j]) == c.parse(c.env(k), attrs[k])
  }

  /** Where a key that was configured but is no more names the variable of one that is, its
      local value is the one configured. */
  predicate Harmless(c: Schema, last: map<string, string>, attrs: map<string, string>, local: Fields) {
    forall k, j :: k in last && k !in attrs && j in attrs && c.env(k) == c.env(j) && c.env(k) in local ==>
      Some(local[c.env(k)]) == c.parse(c.env(j), attrs[j])
  }

  /** No key that was configured but is no more names the variable of one that is. */
  ghost predicate NoClash(c: Schema, last: map<string, string>, attrs: map<string, string>) {
    forall k, j :: k in last && k !in attrs && j in attrs ==> c.env(k) != c.env(j)
  }

  /** So it is, whatever the local values, exactly if there is no such key. */
  lemma HarmlessWhateverLocal(c: Schema, last: map<string, string>, attrs: map<string, string>)
    ensures (forall local: Fields :: Harmless(c, last, attrs, local)) <==> NoClash(c, last, attrs)
  {
    if k, j :| k in last && k !in attrs && j in attrs && c.env(k) == c.env(j) {
      var v := c.parse(c.env(j), attrs[j]);
      var other := if v == None then "" else v.value + "x";
      assert v.Some? ==> |other| == |v.value| + 1;
      assert !Harmless(c, last, attrs, map[c.env(k) := other]);
    }
  }

  /** A function in the `local` map: it sets a field. */
  datatype Setter = Setter(field: string, value: string)

  /** An update of updateRemoteConfig: sets a field, or calls the local function for a key. */
  datatype Update = Set(field: string, value: string) | Revert(key: string)

  type Fields = map<string, string>

  function Names(c: Schema, attrs: map<string, string>): set<string> {
    set k | k in attrs :: c.env(k)
  }

  lemma SameNames(c: Schema, a: map<string, string>, b: map<string, string>)
    requires (forall k :: k in a ==> k in b) && (forall k :: k in b ==> k in a)
    ensures Names(c, a) == Names(c, b)
  {
    assert a.Keys == b.Keys;
  }

  function Apply(c: Schema, values: Fields, local: map<string, Setter>, u: Update): Fields {
    match u
    case Set(field, value) => values[field := value]
    case Revert(key) =>
      if c.env(key) in local then values[local[c.env(key)].field := local[c.env(key)].value] else values
  }

  /** All of the first n updates, in order. */
  function ApplyTo(c: Schema, values: Fields, local: map<string, Setter>, updates: seq<Update>, n: nat): Fields
    requires n <= |updates|
  {
    if n == 0 then values else Apply(c, ApplyTo(c, values, local, updates, n - 1), local, updates[n - 1])
  }

  lemma {:induction false} ApplyPrefix(c: Schema, values: Fields, local: map<string, Setter>, a: seq<Update>, b: seq<Update>, n: nat)
    requires n <= |a|
    ensures ApplyTo(c, values, local, a + b, n) == ApplyTo(c, values, local, a, n)
  {
    if n > 0 {
      ApplyPrefix(c, values, local, a, b, n - 1);
    }
  }

  lemma ApplyAppend(c: Schema, values: Fields, local: map<string, Setter>, updates: seq<Update>, u: Update)
    ensures ApplyTo(c, values, local, updates + [u], |updates + [u]|) ==
            Apply(c, ApplyTo(c, values, local, updates, |updates|), local, u)
  {
    ApplyPrefix(c, values, local, updates, [u], |updates|);
  }

  /** The entries that have a value. */
  ghost predicate AllParse(c: Schema, attrs: map<string, string>) {
    forall k :: k in attrs ==> c.parse(c.env(k), attrs[k]).Some?
  }

  /** The value of a field under an overlay: the remote one, if any, over the local one. */
  ghost predicate Overlaid(c: Schema, values: Fields, local: Fields, attrs: map<string, string>) {
    && (forall k :: k in attrs ==> c.env(k) in values && Some(values[c.env(k)]) == c.parse(c.env(k), attrs[k]))
    && (forall e :: e in local && (forall k :: k in attrs ==> c.env(k) != e) ==> e in values && values[e] == local[e])
  }

  /** The entries that have a value. */
  function Parsed(c: Schema, attrs: map<string, string>): map<string, string> {
    map k | k in attrs && c.parse(c.env(k), attrs[k]).Some? :: attrs[k]
  }

  /** k is configured, and done with. */
  ghost predicate Done(attrs: map<string, string>, todo: set<string>, k: string) {
    k in attrs && k !in todo
  }

  /** The field has the value of a key that is done with. */
  ghost predicate FromKey(c: Schema, after: Fields, attrs: map<string, string>, todo: set<string>, e: string) {
    e in after && exists j :: Done(attrs, todo, j) && c.env(j) == e && Some(after[e]) == c.parse(e, attrs[j])
  }

  /** After the keys of attrs but those in todo: their fields have remote values, and all
      others are as they were. */
  ghost predicate Changed(c: Schema, before: Fields, after: Fields, attrs: map<string, string>, todo: set<string>) {
    && before.Keys <= after.Keys
    && (forall k :: Done(attrs, todo, k) ==> FromKey(c, after, attrs, todo, c.env(k)))
    && (forall e :: e in before && (forall k :: Done(attrs, todo, k) ==> c.env(k) != e) ==> after[e] == before[e])
  }

  lemma KeyChanged(c: Schema, before: Fields, after: Fields, attrs: map<string, string>, todo: set<string>, k: string)
    requires Changed(c, before, after, attrs, todo) && k in todo && k in attrs
    requires c.parse(c.env(k), attrs[k]).Some?
    ensures Changed(c, before, after[c.env(k) := c.parse(c.env(k), attrs[k]).value], attrs, todo - {k})
  {
    var after', todo' := after[c.env(k) := c.parse(c.env(k), attrs[k]).value], todo - {k};
    assert Done(attrs, todo', k);
    forall i | Done(attrs, todo', i)
      ensures FromKey(c, after', attrs, todo', c.env(i))
    {
      if c.env(i) != c.env(k) {
        assert Done(attrs, todo, i) && FromKey(c, after, attrs, todo, c.env(i));
        var j :| Done(attrs, todo, j) && c.env(j) == c.env(i) && Some(after[c.env(i)]) == c.parse(c.env(i), attrs[j]);
        assert Done(attrs, todo', j);
      }
    }
    forall e | e in before && (forall i :: Done(attrs, todo', i) ==> c.env(i) != e)
      ensures after'[e] == before[e]
    {
      assert forall i :: Done(attrs, todo, i) ==> Done(attrs, todo', i);
    }
  }

  lemma KeySame(c: Schema, before: Fields, after: Fields, attrs: map<string, string>, todo: set<string>, k: string)
    requires Changed(c, before, after, attrs, todo) && k in todo && k in attrs
    requires c.env(k) in before && Some(before[c.env(k)]) == c.parse(c.env(k), attrs[k])
    ensures Changed(c, before, after, attrs, todo - {k})
  {
    var todo' := todo - {k};
    forall i | Done(attrs, todo', i)
      ensures FromKey(c, after, attrs, todo', c.env(i))
    {
      if l :| Done(attrs, todo, l) && c.env(l) == c.env(i) {
        assert FromKey(c, after, attrs, todo, c.env(l));
        var j :| Done(attrs, todo, j) && c.env(j) == c.env(i) && Some(after[c.env(i)]) == c.parse(c.env(i), attrs[j]);
        assert Done(attrs, todo', j);
      } else {
        assert i == k && after[c.env(k)] == before[c.env(k)] && Done(attrs, todo', k);
      }
    }
    assert forall i :: Done(attrs, todo, i) ==> Done(attrs, todo', i);
  }

  lemma KeyDropped(c: Schema, before: Fields, after: Fields, attrs: map<string, string>, todo: set<string>, k: string)
    requires Changed(c, before, after, attrs, todo) && k in todo
    ensures Changed(c, before, after, attrs - {k}, todo - {k})
  {
    var attrs', todo' := attrs - {k}, todo - {k};
    assert forall j :: Done(attrs', todo', j) <==> Done(attrs, todo, j);
    forall i | Done(attrs', todo', i)
      ensures FromKey(c, after, attrs', todo', c.env(i))
    {
      assert Done(attrs, todo, i) && FromKey(c, after, attrs, todo, c.env(i));
      var j :| Done(attrs, todo, j) && c.env(j) == c.env(i) && Some(after[c.env(i)]) == c.parse(c.env(i), attrs[j]);
      assert Done(attrs', todo', j);
    }
  }

  /** k was configured and is no more, and is done with; and there is a local value. */
  ghost predicate Dropped(c: Schema, local: Fields, last: map<string, string>, attrs: map<string, string>,
                          todo: set<string>, k: string) {
    k in last && k !in attrs && k !in todo && c.env(k) in local
  }

  ghost predicate ByDropped(c: Schema, local: Fields, last: map<string, string>, attrs: map<string, string>,
                            todo: set<string>, e: string) {
    exists k :: Dropped(c, local, last, attrs, todo, k) && c.env(k) == e
  }

  ghost predicate ByKey(c: Schema, attrs: map<string, string>, e: string) {
    exists k :: k in attrs && c.env(k) == e
  }

  /** After the keys of last but those in todo, too: fields of those no longer in attrs have
      their local values again. */
  ghost predicate Reverted(c: Schema, before: Fields, after: Fields, local: Fields, last: map<string, string>,
                           attrs: map<string, string>, todo: set<string>) {
    && before.Keys <= after.Keys
    && forall e ::
         if ByDropped(c, local, last, attrs, todo, e) then e in after && after[e] == local[e]
         else if ByKey(c, attrs, e) then FromKey(c, after, attrs, {}, e)
         else e in before ==> after[e] == before[e]
  }

  lemma KeyReverted(c: Schema, before: Fields, after: Fields, local: Fields, last: map<string, string>,
                    attrs: map<string, string>, todo: set<string>, k: string)
    requires Reverted(c, before, after, local, last, attrs, todo) && k in todo && k in last && k !in attrs
    ensures Reverted(c, before, if c.env(k) in local then after[c.env(k) := local[c.env(k)]] else after,
                     local, last, attrs, todo - {k})
  {
    var after' := if c.env(k) in local then after[c.env(k) := local[c.env(k)]] else after;
    forall e
      ensures ByDropped(c, local, last, attrs, todo - {k}, e) <==>
              ByDropped(c, local, last, attrs, todo, e) || (e == c.env(k) && e in local)
    {
      if ByDropped(c, local, last, attrs, todo, e) {
        var j :| Dropped(c, local, last, attrs, todo, j) && c.env(j) == e;
        assert Dropped(c, local, last, attrs, todo - {k}, j);
      }
      if e == c.env(k) && e in local {
        assert Dropped(c, local, last, attrs, todo - {k}, k);
      }
      if ByDropped(c, local, last, attrs, todo - {k}, e) && !(e == c.env(k) && e in local) {
        var j :| Dropped(c, local, last, attrs, todo - {k}, j) && c.env(j) == e;
        assert Dropped(c, local, last, attrs, todo, j);
      }
    }
    forall e | e != c.env(k) && FromKey(c, after, attrs, {}, e)
      ensures FromKey(c, after', attrs, {}, e)
    {
    }
  }

  lemma KeyKept(c: Schema, before: Fields, after: Fields, local: Fields, last: map<string, string>,
                attrs: map<string, string>, todo: set<string>, k: string)
    requires Reverted(c, before, after, local, last, attrs, todo) && k in attrs
    ensures Reverted(c, before, after, local, last, attrs, todo - {k})
  {
    assert forall j :: Dropped(c, local, last, attrs, todo - {k}, j) <==> Dropped(c, local, last, attrs, todo, j);
    forall e
      ensures ByDropped(c, local, last, attrs, todo - {k}, e) <==> ByDropped(c, local, last, attrs, todo, e)
    {
    }
  }

  /** After a change the overlay is of what is configured now exactly if keys that name the
      same variable agree on it, those still configured and those that are no more. */
  lemma AllReverted(c: Schema, before: Fields, after: Fields, local: Fields, last: map<string, string>, attrs: map<string, string>)
    requires Reverted(c, before, after, local, last, attrs, {}) && Overlaid(c, before, local, last)
    ensures Overlaid(c, after, local, attrs) <==> Consistent(c, attrs) && Harmless(c, last, attrs, local)
  {
    if Consistent(c, attrs) && Harmless(c, last, attrs, local) {
      OverlaidIfConsistent(c, before, after, local, last, attrs);
    } else if j, k :| j in attrs && k in attrs && c.env(j) == c.env(k) &&
                      c.parse(c.env(j), attrs[j]) != c.parse(c.env(k), attrs[k]) {
      assert !(Some(after[c.env(j)]) == c.parse(c.env(j), attrs[j]) && Some(after[c.env(k)]) == c.parse(c.env(k), attrs[k]));
    } else {
      var k, j :| k in last && k !in attrs && j in attrs && c.env(k) == c.env(j) && c.env(k) in local &&
                  Some(local[c.env(k)]) != c.parse(c.env(j), attrs[j]);
      DroppedIsLocal(c, before, after, local, last, attrs, k);
    }
  }

  lemma DroppedIsLocal(c: Schema, before: Fields, after: Fields, local: Fields, last: map<string, string>,
                       attrs: map<string, string>, k: string)
    requires Reverted(c, before, after, local, last, attrs, {}) && k in last && k !in attrs && c.env(k) in local
    ensures c.env(k) in after && after[c.env(k)] == local[c.env(k)]
  {
    assert Dropped(c, local, last, attrs, {}, k);
    assert ByDropped(c, local, last, attrs, {}, c.env(k));
  }

  lemma OverlaidIfConsistent(c: Schema, before: Fields, after: Fields, local: Fields, last: map<string, string>,
                             attrs: map<string, string>)
    requires Reverted(c, before, after, local, last, attrs, {}) && Overlaid(c, before, local, last)
    requires Consistent(c, attrs) && Harmless(c, last, attrs, local)
    ensures Overlaid(c, after, local, attrs)
  {
    forall k | k in attrs
      ensures c.env(k) in after && Some(after[c.env(k)]) == c.parse(c.env(k), attrs[k])
    {
      var e := c.env(k);
      assert ByKey(c, attrs, e);
      if ByDropped(c, local, last, attrs, {}, e) {
        var d :| Dropped(c, local, last, attrs, {}, d) && c.env(d) == e;
        assert after[e] == local[e];
      } else {
        assert FromKey(c, after, attrs, {}, e);
      }
    }
    forall e | e in local && (forall k :: k in attrs ==> c.env(k) != e)
      ensures e in after && after[e] == local[e]
    {
      assert !ByKey(c, attrs, e);
      if k :| k in last && c.env(k) == e {
        assert Dropped(c, local, last, attrs, {}, k);
      } else {
        assert e in before && before[e] == local[e];
        assert !ByDropped(c, local, last, attrs, {}, e);
      }
    }
  }

  /** What is configured agrees with the local values. */
  ghost predicate RemoteAgrees(c: Schema, last: map<string, string>, local: Fields) {
    forall k :: k in last && c.env(k) in local ==> Some(local[c.env(k)]) == c.parse(c.env(k), last[k])
  }

  /** Exactly the local configuration is in effect. */
  ghost predicate LocalInEffect(values: Fields, local: Fields) {
    forall e :: e in local ==> e in values && values[e] == local[e]
  }

  lemma AgreesIsLocal(c: Schema, values: Fields, local: Fields, last: map<string, string>)
    requires Overlaid(c, values, local, last)
    ensures LocalInEffect(values, local) <==> RemoteAgrees(c, last, local)
  {
    if RemoteAgrees(c, last, local) {
      forall e | e in local
        ensures e in values && values[e] == local[e]
      {
        if k :| k in last && c.env(k) == e {
        }
      }
    }
  }

  /** Each field is the value centrally configured, if there is one, and else the value set
      locally; and `remote` says for which there is one. */
  ghost predicate InForce(c: Schema, values: Fields, local: map<string, Setter>, localValues: Fields,
                          remote: set<string>, last: map<string, string>) {
    && local.Keys == localValues.Keys
    && (forall e :: e in local ==> local[e] == Setter(e, localValues[e]))
    && remote == Names(c, last)
    && AllParse(c, last)
    && Overlaid(c, values, localValues, last)
  }

  lemma LocalSet(c: Schema, values: Fields, local: map<string, Setter>, localValues: Fields,
                 remote: set<string>, last: map<string, string>, e: string, v: string)
    requires InForce(c, values, local, localValues, remote, last)
    ensures e in remote ==> InForce(c, values, local[e := Setter(e, v)], localValues[e := v], remote, last)
    ensures e !in remote ==> InForce(c, values[e := v], local[e := Setter(e, v)], localValues[e := v], remote, last)
  {
    if e in remote {
      LocalSetUnderRemote(c, values, local, localValues, remote, last, e, v);
    } else {
      forall k | k in last
        ensures c.env(k) != e
      {
        assert c.env(k) in remote;
      }
    }
  }

  /** A setter of a field, registered under whatever key, keeps the overlay if and only if that
      key is remote just when the field is, or the field had the value before. */
  lemma SetExactly(c: Schema, values: Fields, local: map<string, Setter>, localValues: Fields,
                   remote: set<string>, last: map<string, string>, envKey: string, field: string, v: string)
    requires InForce(c, values, local, localValues, remote, last)
    ensures Overlaid(c, if envKey in remote then values else values[field := v], localValues[field := v], last) <==>
            (envKey in remote <==> field in remote) || (field in values && values[field] == v)
  {
    var values' := if envKey in remote then values else values[field := v];
    if field in remote {
      var k :| k in last && c.env(k) == field;
      assert Some(values[field]) == c.parse(field, last[k]);
      assert field in values';
    } else {
      assert forall k :: k in last ==> c.env(k) in remote;
      if Overlaid(c, values', localValues[field := v], last) {
        assert field in values' && values'[field] == v;
      }
    }
  }

  lemma LocalSetUnderRemote(c: Schema, values: Fields, local: map<string, Setter>, localValues: Fields,
                            remote: set<string>, last: map<string, string>, e: string, v: string)
    requires InForce(c, values, local, localValues, remote, last) && e in remote
    ensures InForce(c, values, local[e := Setter(e, v)], localValues[e := v], remote, last)
  {
    var k :| k in last && c.env(k) == e;
  }

  lemma ChangeInForce(c: Schema, values: Fields, local: map<string, Setter>, localValues: Fields,
                      remote: set<string>, last: map<string, string>, values': Fields, attrs: map<string, string>)
    requires InForce(c, values, local, localValues, remote, last)
    ensures InForce(c, values', local, localValues, Names(c, Parsed(c, attrs)), Parsed(c, attrs)) <==>
            Overlaid(c, values', localValues, Parsed(c, attrs))
  {
  }

  /** One key of the new configuration, in the first loop. */
  lemma FirstLoopStarts(c: Schema, values: Fields, attrs: map<string, string>)
    ensures Changed(c, values, values, attrs, attrs.Keys)
  {
  }

  lemma SecondLoopStarts(c: Schema, before: Fields, after: Fields, local: Fields, last: map<string, string>, attrs: map<string, string>)
    requires Changed(c, before, after, attrs, {})
    ensures Reverted(c, before, after, local, last, attrs, last.Keys)
  {
    forall e
      ensures !ByDropped(c, local, last, attrs, last.Keys, e)
      ensures if ByKey(c, attrs, e) then FromKey(c, after, attrs, {}, e) else e in before ==> after[e] == before[e]
    {
      if ByKey(c, attrs, e) {
        var k :| k in attrs && c.env(k) == e;
        assert Done(attrs, {}, k);
      }
    }
  }

  /** What is left of the new configuration while the keys in todo are still to be parsed. */
  function Remaining(c: Schema, attrs: map<string, string>, todo: set<string>): map<string, string> {
    map k | k in attrs && (k in todo || c.parse(c.env(k), attrs[k]).Some?) :: attrs[k]
  }

  lemma RemainingSteps(c: Schema, attrs: map<string, string>, todo: set<string>, k: string)
    requires k in todo && k in attrs
    ensures Remaining(c, attrs, todo - {k}) ==
            if c.parse(c.env(k), attrs[k]).Some? then Remaining(c, attrs, todo) else Remaining(c, attrs, todo) - {k}
    ensures Remaining(c, attrs, {}) == Parsed(c, attrs) && Remaining(c, attrs, attrs.Keys) == attrs
  {
  }
}

module ConfigOverlay {
  import opened Basics
  import opened ConfigValues

  /** The first loop of updateRemoteConfig: drops what does not parse, and collects the
      updates for what has changed. */
  method CollectChanges(c: Schema, last: map<string, string>, attrs0: map<string, string>,
                        ghost values: Fields, ghost local: map<string, Setter>)
    returns (attrs: map<string, string>, updates: seq<Update>)
    requires forall k :: k in last ==> c.env(k) in values && Some(values[c.env(k)]) == c.parse(c.env(k), last[k])
    ensures attrs == Parsed(c, attrs0)
    ensures Changed(c, values, ApplyTo(c, values, local, updates, |updates|), attrs, {})
    ensures updates == [] ==> forall k :: k in attrs ==> k in last && last[k] == attrs[k]
  {
    attrs, updates := attrs0, [];
    var todo := attrs0.Keys;
    ghost var after := values;
    FirstLoopStarts(c, values, attrs0);
    while todo != {}
      invariant todo <= attrs0.Keys
      invariant attrs == Remaining(c, attrs0, todo)
      invariant after == ApplyTo(c, values, local, updates, |updates|) && Changed(c, values, after, attrs, todo)
      invariant updates == [] ==> forall k :: k in attrs && k !in todo ==> k in last && last[k] == attrs[k]
      decreases |todo|
    {
      var k :| k in todo;
      RemainingSteps(c, attrs0, todo, k);
      if k in last && last[k] == attrs0[k] {
        KeySame(c, values, after, attrs, todo, k);
        todo := todo - {k};
        continue;
      }
      var value := c.parse(c.env(k), attrs0[k]);
      if value == None {
        KeyDropped(c, values, after, attrs, todo, k);
        attrs := attrs - {k};
      } else {
        KeyChanged(c, values, after, attrs, todo, k);
        var u := Set(c.env(k), value.value);
        ApplyAppend(c, values, local, updates, u);
        updates := updates + [u];
        after := Apply(c, after, local, u);
      }
      todo := todo - {k};
    }
  }

  /** The second loop: what is no longer configured reverts to the local value. */
  method CollectReversions(c: Schema, last: map<string, string>, attrs: map<string, string>, changes: seq<Update>,
                           ghost values: Fields, ghost local: map<string, Setter>, ghost localValues: Fields)
    returns (updates: seq<Update>)
    requires local.Keys == localValues.Keys && forall e :: e in local ==> local[e] == Setter(e, localValues[e])
    requires Changed(c, values, ApplyTo(c, values, local, changes, |changes|), attrs, {})
    ensures Reverted(c, values, ApplyTo(c, values, local, updates, |updates|), localValues, last, attrs, {})
    ensures updates == [] ==> changes == [] && forall k :: k in last ==> k in attrs
  {
    updates := changes;
    var todo := last.Keys;
    ghost var after := ApplyTo(c, values, local, changes, |changes|);
    SecondLoopStarts(c, values, after, localValues, last, attrs);
    while todo != {}
      invariant todo <= last.Keys
      invariant after == ApplyTo(c, values, local, updates, |updates|)
      invariant Reverted(c, values, after, localValues, last, attrs, todo)
      invariant updates == [] ==> changes == [] && forall k :: k in last && k !in todo ==> k in attrs
      decreases |todo|
    {
      var k :| k in todo;
      if k in attrs {
        KeyKept(c, values, after, localValues, last, attrs, todo, k);
        todo := todo - {k};
        continue;
      }
      KeyReverted(c, values, after, localValues, last, attrs, todo, k);
      var u := Revert(k);
      ApplyAppend(c, values, local, updates, u);
      updates := updates + [u];
      after := Apply(c, after, local, u);
      todo := todo - {k};
    }
  }

  class Tracer {
    const c: Schema

    var values: Fields
    var local: map<string, Setter>
    var remote: set<string>

    /** lastConfigChange in the tracer's loop, and whether configChanges is not nil. */
    var last: map<string, string>
    var watching: bool

    /** The value that each field was last set to locally. */
    ghost var localValues: Fields

    ghost predicate Valid()
      reads this
    {
      InForce(c, values, local, localValues, remote, last)
    }

    constructor (c: Schema)
      ensures Valid() && this.c == c && values == map[] && last == map[] && localValues == map[] && !watching
    {
      this.c := c;
      values, local, remote, last, localValues, watching := map[], map[], {}, map[], map[], false;
    }

    /** setLocalInstrumentationConfig, with a function that sets `field`. */
    method SetLocalUnder(envKey: string, field: string, value: string)
      modifies this`local, this`values
      ensures local == old(local)[envKey := Setter(field, value)]
      ensures values == if envKey in remote then old(values) else old(values)[field := value]
    {
      local := local[envKey := Setter(field, value)];
      if envKey !in remote {
        values := values[field := value];
      }
    }

    /** A setter that registers under its own field's key. */
    method SetLocal(field: string, value: string)
      requires Valid()
      modifies this`local, this`values, this`localValues
      ensures Valid() && localValues == old(localValues)[field := value]
      ensures field in remote ==> values == old(values)
      ensures field !in remote ==> values == old(values)[field := value]
    {
      LocalSet(c, values, local, localValues, remote, last, field, value);
      localValues := localValues[field := value];
      SetLocalUnder(field, field, value);
    }

    method ApplyAll(updates: seq<Update>)
      modifies this`values
      ensures values == ApplyTo(c, old(values), local, updates, |updates|)
    {
      for i := 0 to |updates|
        invariant values == ApplyTo(c, old(values), local, updates, i)
      {
        values := Apply(c, values, local, updates[i]);
      }
    }

    /** The update of the configuration, if there is any. */
    method Install(attrs: map<string, string>, updates: seq<Update>)
      modifies this`values, this`remote
      ensures values == ApplyTo(c, old(values), local, updates, |updates|)
      ensures remote == if updates != [] then Names(c, attrs) else old(remote)
    {
      if updates != [] {
        remote := Names(c, attrs);
        ApplyAll(updates);
      }
    }

    /** updateRemoteConfig: afterwards the overlay is of what was configured now and parses,
        exactly if keys that name the same variable agree on it. */
    method UpdateRemoteConfig(attrs0: map<string, string>) returns (attrs: map<string, string>)
      requires Valid()
      modifies this`values, this`remote
      ensures attrs == Parsed(c, attrs0) && remote == Names(c, attrs)
      ensures Reverted(c, old(values), values, localValues, last, attrs, {})
      ensures Overlaid(c, values, localValues, attrs) <==> Consistent(c, attrs) && Harmless(c, last, attrs, localValues)
    {
      var changes;
      attrs, changes := CollectChanges(c, last, attrs0, values, local);
      var updates := CollectReversions(c, last, attrs, changes, values, local, localValues);
      ghost var after := ApplyTo(c, values, local, updates, |updates|);
      AllReverted(c, values, after, localValues, last, attrs);
      if updates == [] {
        SameNames(c, last, attrs);
      }
      Install(attrs, updates);
    }

    /** A change from the config watcher. */
    method OnChange(attrs: map<string, string>)
      requires Valid() && watching
      modifies this`values, this`remote, this`last
      ensures last == Parsed(c, attrs) && remote == Names(c, last)
      ensures Reverted(c, old(values), values, localValues, old(last), last, {})
      ensures Valid() <==> Consistent(c, last) && Harmless(c, old(last), last, localValues)
    {
      ghost var v, r, l := values, remote, last;
      last := UpdateRemoteConfig(attrs);
      ChangeInForce(c, v, local, localValues, r, l, values, attrs);
    }

    /** The watcher could not get the configuration: nothing changes. */
    method OnError()
      requires Valid() && watching
      ensures Valid()
    {
    }

    /** The watcher closes its channel, and from then on is not listened to.  What it
        configured stays in force. */
    method OnClosed()
      requires Valid() && watching
      modifies this`watching
      ensures Valid() && !watching
    {
      watching := false;
    }

    /** Another watcher, or none.  The remote configuration is discarded, and exactly the local
        configuration in effect again, if and only if the channel of the watcher before was
        still open, or nothing that differs was configured. */
    method OnWatcher(another: bool)
      requires Valid()
      modifies this`values, this`remote, this`last, this`watching
      ensures Valid() && watching == another
      ensures old(watching) ==> last == map[] && remote == {}
      ensures !old(watching) ==> last == old(last) && remote == old(remote) && values == old(values)
      ensures LocalInEffect(values, localValues) <==> old(watching) || RemoteAgrees(c, old(last), localValues)
    {
      if watching {
        ghost var v, r, l := values, remote, last;
        var none := UpdateRemoteConfig(map[]);
        assert none == map[];
        last := map[];
        ChangeInForce(c, v, local, localValues, r, l, values, map[]);
        watching := false;
      }
      AgreesIsLocal(c, values, localValues, last);
      if !another {
        return;
      }
      watching := true;
    }
  }

  datatype Step =
    | Local(field: string, value: string)
    | Change(attrs: map<string, string>)
    | Error
    | Closed
    | Watcher(another: bool)

  /** What should be in force: the local values, and what is configured centrally. */
  datatype Config = Config(local: Fields, last: map<string, string>, watching: bool)

  /** A change replaces all that was configured; a watcher discards it, if there was another
      whose channel is still open. */
  function After(c: Schema, s: Config, step: Step): Config {
    match step
    case Local(field, value) => s.(local := s.local[field := value])
    case Change(attrs) => if s.watching then s.(last := Parsed(c, attrs)) else s
    case Error => s
    case Closed => s.(watching := false)
    case Watcher(another) => Config(s.local, if s.watching then map[] else s.last, another)
  }

  function AfterAll(c: Schema, s: Config, steps: seq<Step>, n: nat): Config
    requires n <= |steps|
  {
    if n == 0 then s else After(c, AfterAll(c, s, steps, n - 1), steps[n - 1])
  }

  ghost function ConfigOf(t: Tracer): Config
    reads t
  {
    Config(t.localValues, t.last, t.watching)
  }

  method ChangeIfWatching(t: Tracer, attrs: map<string, string>) returns (agree: bool)
    requires t.Valid()
    modifies t
    ensures agree == t.Valid() && (!agree ==> t.watching)
    ensures ConfigOf(t) == After(t.c, old(ConfigOf(t)), Change(attrs))
  {
    if !t.watching {
      return true;
    }
    var now, local := Parsed(t.c, attrs), map e | e in t.local :: t.local[e].value;
    agree := Consistent(t.c, now) && Harmless(t.c, t.last, now, local);
    assert local == t.localValues;
    t.OnChange(attrs);
  }

  /** Over any run of local settings, changes, errors, closed channels and watchers, each
      field has the value last configured for it, if there is one, and else its last local
      value; up to the first change whose keys disagree on a variable, if there is one. */
  method Run(t: Tracer, steps: seq<Step>) returns (n: nat)
    requires t.Valid()
    modifies t
    ensures n <= |steps| && ConfigOf(t) == AfterAll(t.c, old(ConfigOf(t)), steps, n)
    ensures t.Valid() || (n > 0 && steps[n - 1].Change? && t.watching)
    ensures n < |steps| ==> !t.Valid()
  {
    hide InForce;
    n := 0;
    while n < |steps|
      invariant n <= |steps| && t.Valid() && ConfigOf(t) == AfterAll(t.c, old(ConfigOf(t)), steps, n)
    {
      var agree := true;
      match steps[n] {
        case Local(field, value) => t.SetLocal(field, value);
        case Change(attrs) => agree := ChangeIfWatching(t, attrs);
        case Error =>
        case Closed =>
          if t.watching {
            t.OnClosed();
          }
        case Watcher(another) => t.OnWatcher(another);
      }
      n := n + 1;
      if !agree {
        return;
      }
    }
  }

  // ----- where the overlay fails -----

  /** Reverting a key restores its field, whatever its value, exactly when the local function
      registered under the key sets that field. */
  lemma RevertsOwnField(c: Schema, local: map<string, Setter>, k: string)
    requires c.env(k) in local
    ensures (forall values :: c.env(k) in Apply(c, values, local, Revert(k)) &&
                              Apply(c, values, local, Revert(k))[c.env(k)] == local[c.env(k)].value) <==>
            local[c.env(k)].field == c.env(k)
  {
    if local[c.env(k)].field != c.env(k) {
      assert c.env(k) !in Apply(c, map[], local, Revert(k));
    }
  }

  /** A setter that registers under a key, which may be that of another field: the overlay is
      kept exactly if both are centrally configured or neither is, or nothing changes. */
  method SetUnderKey(t: Tracer, envKey: string, field: string, value: string)
    requires t.Valid()
    modifies t
    ensures t.localValues == old(t.localValues)[field := value] && t.last == old(t.last) && t.remote == old(t.remote)
    ensures t.values == if envKey in t.remote then old(t.values) else old(t.values)[field := value]
    ensures Overlaid(t.c, t.values, t.localValues, t.last) <==>
            (envKey in t.remote <==> field in t.remote) || (field in old(t.values) && old(t.values)[field] == value)
  {
    SetExactly(t.c, t.values, t.local, t.localValues, t.remote, t.last, envKey, field, value);
    t.SetLocalUnder(envKey, field, value);
    t.localValues := t.localValues[field := value];
  }

  /** A setter registered under another field's key that is centrally configured, as
      SetCaptureHeaders is under that of the maximum of spans: it does nothing, though its own
      field is not centrally configured. */
  method WrongKeyIgnored(t: Tracer, envKey: string, field: string, value: string)
    requires t.Valid() && envKey in t.remote && field !in t.remote
    requires field in t.values ==> t.values[field] != value
    modifies t
    ensures t.values == old(t.values) && t.localValues == old(t.localValues)[field := value]
    ensures !Overlaid(t.c, t.values, t.localValues, t.last)
  {
    SetUnderKey(t, envKey, field, value);
  }

  /** A setter registered under another field's key, as SetCaptureBody is under that of the
      maximum of spans: it changes its field even where that is centrally configured. */
  method WrongKeyOverridesRemote(t: Tracer, envKey: string, k: string, value: string)
    requires t.Valid() && k in t.last && envKey !in t.remote && Some(value) != t.c.parse(t.c.env(k), t.last[k])
    modifies t
    ensures t.c.env(k) in t.remote && t.c.env(k) in t.values && t.values[t.c.env(k)] == value
    ensures !Overlaid(t.c, t.values, t.localValues, t.last)
  {
    SetUnderKey(t, envKey, t.c.env(k), value);
  }

  function EnvName(k: string): string {
    "ELASTIC_APM_" + seq(|k|, i requires 0 <= i < |k| => UpperChar(k[i]))
  }

  /** As these keys of the same variable are. */
  lemma SameVariable()
    ensures EnvName("Recording") == EnvName("recording") && "Recording" != "recording"
  {
    var a, b := EnvName("Recording"), EnvName("recording");
    forall i | 0 <= i < |a|
      ensures a[i] == b[i]
    {
    }
    assert a == b;
    assert "Recording"[0] != "recording"[0];
  }

  /** Central configuration that names the same variable by another key than before: the new
      value is set and then reverted, though it is the one configured. */
  method SameVariableInAnotherCase(t: Tracer, k: string, j: string, v: string)
    requires t.Valid() && t.watching && j != k && t.c.env(j) == t.c.env(k) && k in t.last && t.c.env(k) in t.localValues
    requires t.c.parse(t.c.env(k), v) !in {None, Some(t.localValues[t.c.env(k)])}
    modifies t
    ensures t.last == map[j := v] && t.c.env(k) in t.remote && !t.Valid()
    ensures t.c.env(k) in t.values && t.values[t.c.env(k)] == old(t.localValues[t.c.env(k)])
  {
    ghost var last := t.last;
    var attrs := map[j := v];
    t.OnChange(attrs);
    assert t.last == attrs;
    assert j in attrs && t.c.env(j) in Names(t.c, attrs);
    DroppedIsLocal(t.c, old(t.values), t.values, t.localValues, last, attrs, k);
  }

  /** A watcher that closes its channel, and then is dropped: what it configured stays. */
  method ClosedWatchKeepsRemote(t: Tracer, k: string)
    requires t.Valid() && t.watching && k in t.last && t.c.env(k) in t.localValues
    requires Some(t.localValues[t.c.env(k)]) != t.c.parse(t.c.env(k), t.last[k])
    modifies t
    ensures !t.watching && t.c.env(k) in t.remote && t.c.env(k) in t.values
    ensures t.values[t.c.env(k)] == old(t.values[t.c.env(k)]) != old(t.localValues[t.c.env(k)])
  {
    t.OnClosed();
    t.OnWatcher(false);
    assert t.c.env(k) in Names(t.c, t.last);
  }
}
