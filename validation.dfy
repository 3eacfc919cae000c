/** `validateBeforePublication`: the checks on the checked layers' names,
    then the selected servers' own validators. Publishing may go ahead
    exactly when the resulting error set is empty. */
module Validation {
  import opened Util
  import opened Layers
  import opened Servers

  /** The characters a layer name must not contain. */
  const ForbiddenChars: string := "?&=#"

  const DuplicateNameMessage: string := "Several layers with the same name"

  function UnsupportedCharMessage(c: char): (r: string)
    ensures |r| == 38 && r[37] == c
  {
    "Unsupported character in layer name: " + [c]
  }

  /** `_toPublish`: the names of the checked rows, in list order. */
  function CheckedNames(layers: seq<Layer>, checked: seq<bool>): seq<string>
    requires |checked| == |layers|
  {
    if layers == [] then []
    else (if checked[0] then [layers[0].name] else []) + CheckedNames(layers[1..], checked[1..])
  }

  /** The names to publish are those of the checked rows, no more names
      than rows. */
  lemma {:induction false} CheckedNamesMembers(layers: seq<Layer>, checked: seq<bool>)
    requires |checked| == |layers|
    ensures |CheckedNames(layers, checked)| <= |layers|
    ensures forall n :: n in CheckedNames(layers, checked) <==> exists i :: 0 <= i < |layers| && checked[i] && layers[i].name == n
  {
    if layers != [] {
      CheckedNamesMembers(layers[1..], checked[1..]);
      assert forall i :: 1 <= i < |layers| ==> layers[i] == layers[1..][i - 1] && checked[i] == checked[1..][i - 1];
    }
  }

  /** One more row at the end adds its name when it is checked. */
  lemma {:induction false} CheckedNamesSnoc(layers: seq<Layer>, checked: seq<bool>, i: nat)
    requires |checked| == |layers| && i < |layers|
    ensures CheckedNames(layers[..i + 1], checked[..i + 1])
            == CheckedNames(layers[..i], checked[..i]) + (if checked[i] then [layers[i].name] else [])
    decreases i
  {
    if i > 0 {
      CheckedNamesSnoc(layers[1..], checked[1..], i - 1);
      assert layers[..i + 1][1..] == layers[1..][..i] && checked[..i + 1][1..] == checked[1..][..i];
      assert layers[..i][1..] == layers[1..][..i - 1] && checked[..i][1..] == checked[1..][..i - 1];
    } else {
      assert layers[..1][1..] == [] && layers[..0] == [];
    }
  }

  /** The loop of `_toPublish`: append the name of each checked row. */
  method ToPublish(layers: seq<Layer>, checked: seq<bool>) returns (toPublish: seq<string>)
    requires |checked| == |layers|
    ensures toPublish == CheckedNames(layers, checked)
  {
    toPublish := [];
    var i := 0;
    while i < |layers|
      invariant 0 <= i <= |layers|
      invariant toPublish == CheckedNames(layers[..i], checked[..i])
    {
      CheckedNamesSnoc(layers, checked, i);
      if checked[i] {
        toPublish := toPublish + [layers[i].name];
      }
      i := i + 1;
    }
    assert layers[..i] == layers && checked[..i] == checked;
  }

  predicate HasDuplicate(names: seq<string>)
  {
    exists i, j :: 0 <= i < j < |names| && names[i] == names[j]
  }

  /** The messages for the forbidden characters among `chars` that occur in
      `name`. */
  function CharErrors(name: string, chars: string): set<string>
  {
    set c | c in chars && c in name :: UnsupportedCharMessage(c)
  }

  /** The name checks of lines 564-574, stated on the whole list: one
      message per forbidden character occurring in some name, and one
      message if any name is repeated. */
  function NameErrors(names: seq<string>): set<string>
  {
    (set c | c in ForbiddenChars && (exists i :: 0 <= i < |names| && c in names[i]) :: UnsupportedCharMessage(c))
    + (if HasDuplicate(names) then {DuplicateNameMessage} else {})
  }

  /** One more name adds its character messages and, if it was seen before,
      the duplicate message. */
  lemma {:induction false} NameErrorsStep(names: seq<string>, i: nat)
    requires i < |names|
    ensures NameErrors(names[..i + 1])
            == NameErrors(names[..i]) + CharErrors(names[i], ForbiddenChars)
               + (if names[i] in names[..i] then {DuplicateNameMessage} else {})
  {
    var prefix, next := names[..i], names[..i + 1];
    assert forall k :: 0 <= k < i ==> next[k] == prefix[k];
    assert next[i] == names[i];
    if names[i] in prefix {
      var k :| 0 <= k < i && prefix[k] == names[i];
      assert next[k] == next[i];
    }
    if HasDuplicate(next) && !HasDuplicate(prefix) {
      var a, b :| 0 <= a < b < |next| && next[a] == next[b];
      assert b == i;
      assert prefix[a] == names[i];
    }
  }

  /** The accumulating loop of lines 562-574 over the checked names. */
  method CollectNameErrors(names: seq<string>) returns (errors: set<string>)
    ensures errors == NameErrors(names)
  {
    var seen: seq<string> := [];
    errors := {};
    var i := 0;
    while i < |names|
      invariant 0 <= i <= |names|
      invariant seen == names[..i]
      invariant errors == NameErrors(names[..i])
    {
      var name := names[i];
      var k := 0;
      while k < |ForbiddenChars|
        invariant 0 <= k <= |ForbiddenChars|
        invariant errors == NameErrors(names[..i]) + CharErrors(name, ForbiddenChars[..k])
      {
        var c := ForbiddenChars[k];
        assert forall d :: d in ForbiddenChars[..k + 1] <==> d in ForbiddenChars[..k] || d == c;
        if c in name {
          errors := errors + {UnsupportedCharMessage(c)};
        }
        k := k + 1;
      }
      assert ForbiddenChars[..k] == ForbiddenChars;
      if name in seen {
        errors := errors + {DuplicateNameMessage};
      }
      NameErrorsStep(names, i);
      seen := seen + [name];
      i := i + 1;
    }
    assert names[..i] == names;
  }

  /** Distinct characters give distinct messages, and no character message
      is the duplicate message. */
  lemma {:induction false} MessagesDistinct(c: char, d: char)
    ensures UnsupportedCharMessage(c) == UnsupportedCharMessage(d) <==> c == d
    ensures UnsupportedCharMessage(c) != DuplicateNameMessage
  {
    assert |DuplicateNameMessage| == 33;
  }

  /** For each forbidden character there is a message exactly when some
      name contains it; no other character ever gets one. */
  lemma {:induction false} NameErrorsForChar(names: seq<string>, c: char)
    ensures c in ForbiddenChars ==>
              (UnsupportedCharMessage(c) in NameErrors(names) <==> exists i :: 0 <= i < |names| && c in names[i])
    ensures c !in ForbiddenChars ==> UnsupportedCharMessage(c) !in NameErrors(names)
  {
    MessagesDistinct(c, c);
    if UnsupportedCharMessage(c) in NameErrors(names) {
      assert UnsupportedCharMessage(c) != DuplicateNameMessage;
      var d :| d in ForbiddenChars && (exists i :: 0 <= i < |names| && d in names[i]) && UnsupportedCharMessage(d) == UnsupportedCharMessage(c);
      MessagesDistinct(c, d);
    }
  }

  /** The duplicate message is there exactly when some name repeats, however
      many times. */
  lemma {:induction false} NameErrorsDuplicate(names: seq<string>)
    ensures DuplicateNameMessage in NameErrors(names) <==> HasDuplicate(names)
  {
    if DuplicateNameMessage in NameErrors(names) && !HasDuplicate(names) {
      var c :| c in ForbiddenChars && UnsupportedCharMessage(c) == DuplicateNameMessage;
      MessagesDistinct(c, c);
    }
  }

  /** The name checks are one of five messages each, so at most five. */
  lemma {:induction false} NameErrorsBounded(names: seq<string>)
    ensures NameErrors(names) <= {UnsupportedCharMessage('?'), UnsupportedCharMessage('&'),
                                  UnsupportedCharMessage('='), UnsupportedCharMessage('#'),
                                  DuplicateNameMessage}
    ensures |NameErrors(names)| <= 5
  {
    var all := {UnsupportedCharMessage('?'), UnsupportedCharMessage('&'),
                UnsupportedCharMessage('='), UnsupportedCharMessage('#'), DuplicateNameMessage};
    assert forall c :: c in ForbiddenChars ==> c == '?' || c == '&' || c == '=' || c == '#';
    assert NameErrors(names) <= all;
    SubsetCardinality(NameErrors(names), all);
    assert |all| <= 5;
  }

  lemma {:induction false} SubsetCardinality<T>(a: set<T>, b: set<T>)
    requires a <= b
    ensures |a| <= |b|
  {
    assert b == a + (b - a);
  }

  /** The metadata step of lines 582-584: the metadata server's validator
      when a metadata server is selected (index not 0); a stale selection
      raises KeyError. */
  function MetadataValidation(errors: set<string>, metaCombo: Combo, reg: Registry, env: Env): Result<set<string>>
  {
    if metaCombo.index != 0 then
      match Resolve(reg.metadata, metaCombo)
      case None => Raised(KeyError)
      case Some(s) => Ok(env.ValidateMetadata(s, errors))
    else Ok(errors)
  }

  /** `validateBeforePublication(toPublish)` without its dialog: the error
      set, or the KeyError that a stale server selection raises. */
  function Validate(names: seq<string>, toPublish: seq<string>, dataCombo: Combo, metaCombo: Combo, reg: Registry, env: Env): Result<set<string>>
  {
    var errors := NameErrors(names);
    if dataCombo.index != 0 then
      match Resolve(reg.geodata, dataCombo)
      case None => Raised(KeyError)
      case Some(s) => MetadataValidation(env.ValidateGeodata(s, errors, toPublish), metaCombo, reg, env)
    else MetadataValidation(errors, metaCombo, reg, env)
  }

  /** `validateBeforePublication` returns True. */
  predicate MayPublish(v: Result<set<string>>)
  {
    v == Ok({})
  }

  /** With "do not publish" selected for both roles no server is asked and
      only the name checks decide. */
  lemma {:induction false} ValidateWithoutServers(names: seq<string>, toPublish: seq<string>, dataCombo: Combo, metaCombo: Combo, reg: Registry, env: Env)
    requires dataCombo.index == 0 && metaCombo.index == 0
    ensures Validate(names, toPublish, dataCombo, metaCombo, reg, env) == Ok(NameErrors(names))
    ensures MayPublish(Validate(names, toPublish, dataCombo, metaCombo, reg, env))
            <==> !HasDuplicate(names) && forall i :: 0 <= i < |names| ==> forall c :: c in ForbiddenChars ==> c !in names[i]
  {
    var v := Validate(names, toPublish, dataCombo, metaCombo, reg, env);
    if !MayPublish(v) && !HasDuplicate(names) {
      if NameErrors(names) == {} {
      } else {
        var e :| e in NameErrors(names);
        NameErrorsDuplicate(names);
        var c :| c in ForbiddenChars && (exists i :: 0 <= i < |names| && c in names[i]) && e == UnsupportedCharMessage(c);
      }
    }
    if !HasDuplicate(names) && exists i :: 0 <= i < |names| && exists c :: c in ForbiddenChars && c in names[i] {
      var i, c :| 0 <= i < |names| && c in ForbiddenChars && c in names[i];
      NameErrorsForChar(names, c);
    }
  }

  /** With no server selected, a name holding a forbidden character makes
      validation refuse, and the errors name that character. */
  lemma {:induction false} BadNameRefusedWithoutServers(names: seq<string>, toPublish: seq<string>, dataCombo: Combo, metaCombo: Combo, reg: Registry, env: Env, i: nat, c: char)
    requires dataCombo.index == 0 && metaCombo.index == 0
    requires i < |names| && c in ForbiddenChars && c in names[i]
    ensures !MayPublish(Validate(names, toPublish, dataCombo, metaCombo, reg, env))
    ensures UnsupportedCharMessage(c) in Validate(names, toPublish, dataCombo, metaCombo, reg, env).value
  {
    NameErrorsForChar(names, c);
  }
}
