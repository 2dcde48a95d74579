/**
 * The name mapping of `ViewWrapper.getListeners` (agent/core/view.ts and
 * agent/view.ts): a listener name `x` is looked up as the field
 * `mOn<X>Listener` of the view's `ListenerInfo`, with `X` being `x` with its
 * first letter capitalised; with no names, the current revision instead
 * lists every declared field that matches `^mOn([A-Za-z]+)Listeners?$`.
 * The reflective reads of the field values are not modelled: each key is
 * mapped to the name of the field it reads.
 */
module Listeners {
  import opened Wrappers

  /** A character `.` does not match in a JavaScript regular expression without the `s` flag. */
  predicate IsLineTerminator(c: char)
  {
    c == '\n' || c == '\r' || c == ' ' || c == ' '
  }

  /** `toUpperCase` on one character, for the ASCII letters. */
  function UpperAscii(c: char): char
  {
    if 'a' <= c <= 'z' then (c as int - 'a' as int + 'A' as int) as char else c
  }

  /** `name.replace(/^./, str => str.toUpperCase())`. */
  function Capitalize(name: string): (r: string)
    ensures |r| == |name|
    ensures |name| > 0 ==> r[1..] == name[1..]
    ensures |name| > 0 && 'a' <= name[0] <= 'z' ==> r[0] == UpperAscii(name[0]) && 'A' <= r[0] <= 'Z'
    ensures |name| > 0 && !('a' <= name[0] <= 'z') ==> r == name
  {
    if |name| == 0 || IsLineTerminator(name[0]) then name else [UpperAscii(name[0])] + name[1..]
  }

  /** The field read for listener name `name`: `` `mOn${capital}Listener` ``. */
  function ListenerField(name: string): (f: string)
    ensures |f| == |name| + 11 && f[..3] == "mOn" && f[|f| - 8..] == "Listener"
    ensures f[3..|f| - 8] == Capitalize(name)
  {
    "mOn" + Capitalize(name) + "Listener"
  }

  predicate IsLetter(c: char)
  {
    'A' <= c <= 'Z' || 'a' <= c <= 'z'
  }

  predicate AllLetters(s: string)
  {
    forall i :: 0 <= i < |s| ==> IsLetter(s[i])
  }

  /**
   * `name.match(/^mOn([A-Za-z]+)Listeners?$/)`: the captured group, or null.
   * A name ends in "Listener" or in "Listeners", never both, so the capture
   * is determined by which suffix is present.
   */
  function ParseListenerField(f: string): (r: Option<string>)
    ensures r.Some? ==> |r.value| > 0 && AllLetters(r.value) && |f| >= |r.value| + 11
    ensures r.Some? ==> f[..3] == "mOn" && f[3..3 + |r.value|] == r.value
  {
    if |f| >= 12 && f[..3] == "mOn" && f[|f| - 8..] == "Listener" && AllLetters(f[3..|f| - 8]) then
      Some(f[3..|f| - 8])
    else if |f| >= 13 && f[..3] == "mOn" && f[|f| - 9..] == "Listeners" && AllLetters(f[3..|f| - 9]) then
      Some(f[3..|f| - 9])
    else None
  }

  /** Every capture is a non-empty run of letters between "mOn" and "Listener" or "Listeners". */
  lemma ParseSound(f: string)
    requires ParseListenerField(f).Some?
    ensures var c := ParseListenerField(f).value;
            |c| > 0 && AllLetters(c) && (f == "mOn" + c + "Listener" || f == "mOn" + c + "Listeners")
  {
    var c := ParseListenerField(f).value;
    if |f| >= 12 && f[..3] == "mOn" && f[|f| - 8..] == "Listener" && AllLetters(f[3..|f| - 8]) {
      assert f == f[..3] + f[3..|f| - 8] + f[|f| - 8..];
    } else {
      assert f == f[..3] + f[3..|f| - 9] + f[|f| - 9..];
    }
  }

  /** Every field name the pattern accepts is recognised, with its capture. */
  lemma ParseComplete(c: string, plural: bool)
    requires |c| > 0 && AllLetters(c)
    ensures ParseListenerField("mOn" + c + (if plural then "Listeners" else "Listener")) == Some(c)
  {
    var f := "mOn" + c + (if plural then "Listeners" else "Listener");
    assert f[..3] == "mOn";
    if plural {
      assert f[|f| - 1] == 's';
      assert f[|f| - 8..] != "Listener" by {
        assert f[|f| - 8..][7] == 's';
      }
      assert f[|f| - 9..] == "Listeners";
      assert f[3..|f| - 9] == c;
    } else {
      assert f[|f| - 8..] == "Listener";
      assert f[3..|f| - 8] == c;
    }
  }

  /**
   * Looking a name up and listing the fields meet: the field read for a
   * name of letters is listed under the capitalised name.
   */
  lemma ListedUnderCapitalized(name: string)
    requires |name| > 0 && AllLetters(name)
    ensures ParseListenerField(ListenerField(name)) == Some(Capitalize(name))
  {
    var c := Capitalize(name);
    assert AllLetters(c) by {
      forall i | 0 <= i < |c|
        ensures IsLetter(c[i])
      {
        if i > 0 {
          assert c[i] == c[1..][i - 1] == name[1..][i - 1] == name[i];
        }
      }
    }
    ParseComplete(c, false);
  }

  /**
   * A listed singular field whose capture starts with a capital (or any
   * non-lower-case letter) is the field the name lookup reads for it.
   */
  lemma LookupReadsListedField(f: string)
    requires ParseListenerField(f).Some? && f[|f| - 1] == 'r'
    requires !('a' <= ParseListenerField(f).value[0] <= 'z')
    ensures ListenerField(ParseListenerField(f).value) == f
  {
    var c := ParseListenerField(f).value;
    ParseSound(f);
    assert Capitalize(c) == c by {
      assert [UpperAscii(c[0])] + c[1..] == c;
    }
    if f == "mOn" + c + "Listeners" {
      assert false;
    }
  }

  /** `Object.fromEntries`: later entries overwrite earlier ones with the same key. */
  function FromEntries(es: seq<(string, string)>): (m: map<string, string>)
    ensures forall k :: k in m <==> exists i :: 0 <= i < |es| && es[i].0 == k
  {
    if |es| == 0 then map[]
    else
      var m := FromEntries(es[..|es| - 1]);
      var e := es[|es| - 1];
      assert forall i :: 0 <= i < |es| - 1 ==> es[..|es| - 1][i] == es[i];
      m[e.0 := e.1]
  }

  /** `names.map(name => [name, info[ListenerField(name)]])`. */
  function NamedEntries(names: seq<string>): (es: seq<(string, string)>)
    ensures |es| == |names| && forall i :: 0 <= i < |names| ==> es[i] == (names[i], ListenerField(names[i]))
  {
    seq(|names|, i requires 0 <= i < |names| => (names[i], ListenerField(names[i])))
  }

  /** The entries the `forEach` over the declared fields pushes, from the fields seen so far. */
  function ListedEntries(fields: seq<string>): seq<(string, string)>
  {
    if |fields| == 0 then []
    else
      var f := fields[|fields| - 1];
      var name := ParseListenerField(f);
      ListedEntries(fields[..|fields| - 1]) + (if name.Some? then [(name.value, f)] else [])
  }

  /** The loop of the listing branch: `fields.push([name[1], info[name[0]]])` for every field that matches. */
  method CollectListed(declared: seq<string>) returns (fields: seq<(string, string)>)
    ensures fields == ListedEntries(declared)
  {
    fields := [];
    for i := 0 to |declared|
      invariant fields == ListedEntries(declared[..i])
    {
      var item := declared[i];
      var name := ParseListenerField(item);
      assert declared[..i + 1][..i] == declared[..i];
      if name != None {
        fields := fields + [(name.value, item)];
      }
    }
    assert declared[..|declared|] == declared;
  }

  /**
   * The current `getListeners(...names)`: with names, one entry per name for
   * the field `ListenerField(name)`; without, one entry per matching
   * declared field, keyed by its capture.
   */
  method GetListeners(names: seq<string>, declared: seq<string>) returns (r: map<string, string>)
    ensures |names| > 0 ==> r == FromEntries(NamedEntries(names))
    ensures |names| == 0 ==> r == FromEntries(ListedEntries(declared))
  {
    if |names| > 0 {
      r := FromEntries(NamedEntries(names));
    } else {
      var fields := CollectListed(declared);
      r := FromEntries(fields);
    }
  }

  /** The default list of the old `getListeners(defaults = ['click'])`. */
  const DEFAULT_NAMES: seq<string> := ["click"]

  /** The old `getListeners(defaults)`: the name lookup only, over `defaults`. */
  function OldGetListeners(defaults: seq<string>): map<string, string>
  {
    FromEntries(NamedEntries(defaults))
  }

  /** By default the old revision reads `mOnClickListener` alone, under the key "click". */
  lemma OldDefault()
    ensures OldGetListeners(DEFAULT_NAMES) == map["click" := "mOnClickListener"]
  {
    var es := NamedEntries(DEFAULT_NAMES);
    assert UpperAscii('c') == 'C';
    assert Capitalize("click") == "Click" by {
      assert "click"[1..] == "lick";
    }
    assert ListenerField("click") == "mOnClickListener";
    assert es == [("click", "mOnClickListener")];
    assert es[..0] == [];
  }

  /** The value `Object.fromEntries` keeps for a key comes from an entry with that key. */
  lemma {:induction false} FromEntriesValue(es: seq<(string, string)>, k: string)
    requires k in FromEntries(es)
    ensures exists i :: 0 <= i < |es| && es[i] == (k, FromEntries(es)[k])
  {
    var init := es[..|es| - 1];
    var e := es[|es| - 1];
    if e.0 != k {
      FromEntriesValue(init, k);
      var i :| 0 <= i < |init| && init[i] == (k, FromEntries(init)[k]);
      assert es[i] == init[i];
    } else {
      assert es[|es| - 1] == (k, FromEntries(es)[k]);
    }
  }

  /** With names, there is one key per distinct name, holding the field read for that name. */
  lemma NamedLookup(names: seq<string>, k: string)
    ensures k in FromEntries(NamedEntries(names)) <==> k in names
    ensures k in FromEntries(NamedEntries(names)) ==> FromEntries(NamedEntries(names))[k] == ListenerField(k)
  {
    var es := NamedEntries(names);
    if k in names {
      var i :| 0 <= i < |names| && names[i] == k;
      assert es[i].0 == k;
    }
    if k in FromEntries(es) {
      FromEntriesValue(es, k);
    }
  }

  /** Each listed entry pairs a declared field with its capture, and every matching field is listed. */
  lemma {:induction false} ListedEntriesSpec(declared: seq<string>)
    ensures forall e :: e in ListedEntries(declared) ==> e.1 in declared && ParseListenerField(e.1) == Some(e.0)
    ensures forall f :: f in declared && ParseListenerField(f).Some? ==> (ParseListenerField(f).value, f) in ListedEntries(declared)
  {
    if |declared| > 0 {
      var init := declared[..|declared| - 1];
      ListedEntriesSpec(init);
      assert declared == init + [declared[|declared| - 1]];
    }
  }

  /**
   * Without names, every key is the capture of a declared field, and holds
   * a declared field with that capture; every matching field is listed.
   */
  lemma ListedLookup(declared: seq<string>, k: string)
    ensures k in FromEntries(ListedEntries(declared)) ==>
              FromEntries(ListedEntries(declared))[k] in declared &&
              ParseListenerField(FromEntries(ListedEntries(declared))[k]) == Some(k)
    ensures (exists f :: f in declared && ParseListenerField(f) == Some(k)) ==> k in FromEntries(ListedEntries(declared))
  {
    var es := ListedEntries(declared);
    ListedEntriesSpec(declared);
    if k in FromEntries(es) {
      FromEntriesValue(es, k);
      var i :| 0 <= i < |es| && es[i] == (k, FromEntries(es)[k]);
      assert es[i] in es;
    }
    if exists f :: f in declared && ParseListenerField(f) == Some(k) {
      var f :| f in declared && ParseListenerField(f) == Some(k);
      var j :| 0 <= j < |es| && es[j] == (k, f);
      assert es[j].0 == k;
    }
  }
}
