/**
 Object IDs built from a device slug and an entity name (custom_components/smartthings_web/naming.py).

 Both arguments are slugs already: `slugify` gives a slug back unchanged.  A device whose name
 leaves no slug has the empty one.
 */
module Naming {
  import opened Wrappers

  predicate StartsWith(s: string, prefix: string) { prefix <= s }
  predicate EndsWith(s: string, suffix: string) { |suffix| <= |s| && s[|s| - |suffix|..] == suffix }

  function Collapse(value: string, prefix: string): string
    decreases |value|
  {
    if StartsWith(value, prefix + "_" + prefix + "_") then Collapse(value[|prefix| + 1..], prefix) else value
  }

  /** `_collapse_repeated_slug_prefix`. */
  method CollapseRepeatedSlugPrefix(value: string, prefix: string) returns (collapsed: string)
    ensures collapsed == Collapse(value, prefix)
  {
    collapsed := value;
    while StartsWith(collapsed, prefix + "_" + prefix + "_")
      invariant Collapse(collapsed, prefix) == Collapse(value, prefix)
      decreases |collapsed|
    {
      collapsed := collapsed[|prefix| + 1..];
    }
  }

  function ObjectId(base: string, suffix: string): string {
    if suffix == "" || suffix == base then base
    else
      var short := Collapse(suffix, base);
      if StartsWith(short, base + "_") then short
      else if EndsWith(base, "_" + short) then base
      else base + "_" + short
  }

  /** `canonical_entity_object_id`: a device without a slug has no object IDs. */
  method CanonicalEntityObjectId(base: string, suffix: string) returns (id: Option<string>)
    ensures id == if base == "" then None else Some(ObjectId(base, suffix))
  {
    if base == "" {
      return None;
    }
    if suffix == "" || base == suffix {
      return Some(base);
    }
    var short := CollapseRepeatedSlugPrefix(suffix, base);
    if StartsWith(short, base + "_") {
      return Some(short);
    }
    if EndsWith(base, "_" + short) {
      return Some(base);
    }
    return Some(base + "_" + short);
  }

  /** Collapsing leaves no doubled prefix. */
  lemma {:induction false} CollapsedIsShort(value: string, prefix: string)
    ensures !StartsWith(Collapse(value, prefix), prefix + "_" + prefix + "_")
    decreases |value|
  {
    if StartsWith(value, prefix + "_" + prefix + "_") { CollapsedIsShort(value[|prefix| + 1..], prefix); }
  }

  lemma DoubledOnlyIfRepeated(base: string, s: string)
    ensures StartsWith(base + "_" + s, base + "_" + base + "_") <==> StartsWith(s, base + "_")
  {
    var whole, doubled := base + "_" + s, base + "_" + base + "_";
    assert doubled == base + "_" + (base + "_");
    assert whole[|base| + 1..] == s && doubled[|base| + 1..] == base + "_";
    if StartsWith(s, base + "_") {
      assert s == base + "_" + s[|base| + 1..];
      assert whole == doubled + s[|base| + 1..];
    }
    if StartsWith(whole, doubled) {
      assert whole[|base| + 1..|doubled|] == doubled[|base| + 1..];
      assert s[..|base| + 1] == base + "_";
    }
  }

  /** An object ID is the device slug itself, or starts with it, and never repeats it twice. */
  lemma ObjectIdNamesDeviceOnce(base: string, suffix: string)
    ensures var id := ObjectId(base, suffix);
            (id == base || StartsWith(id, base + "_")) && !StartsWith(id, base + "_" + base + "_")
  {
    if suffix != "" && suffix != base {
      var short := Collapse(suffix, base);
      CollapsedIsShort(suffix, base);
      DoubledOnlyIfRepeated(base, short);
      assert base + "_" + short == base + "_" + short;
      assert (base + "_") + short == base + "_" + short;
    }
  }

  /** Feeding an object ID back as a name gives the same object ID: migrations reach a fixed point. */
  lemma ObjectIdIsFixedPoint(base: string, suffix: string)
    ensures ObjectId(base, ObjectId(base, suffix)) == ObjectId(base, suffix)
  {
    var id := ObjectId(base, suffix);
    ObjectIdNamesDeviceOnce(base, suffix);
    if id != base {
      assert Collapse(id, base) == id;
    }
  }

  function Repeat(base: string, times: nat): string {
    if times == 0 then "" else base + "_" + Repeat(base, times - 1)
  }

  /** However often a feedback loop has prefixed the device slug, one prefix remains. */
  lemma {:induction false} FeedbackCollapses(base: string, times: nat, rest: string)
    requires times > 0 && !StartsWith(rest, base + "_")
    ensures ObjectId(base, Repeat(base, times) + rest) == base + "_" + rest
    decreases times
  {
    var value := Repeat(base, times) + rest;
    assert value == base + "_" + (Repeat(base, times - 1) + rest);
    CollapseRepeats(base, times, rest);
    assert StartsWith(base + "_" + rest, base + "_");
    assert |value| > |base|;
  }

  lemma {:induction false} CollapseRepeats(base: string, times: nat, rest: string)
    requires times > 0 && !StartsWith(rest, base + "_")
    ensures Collapse(Repeat(base, times) + rest, base) == base + "_" + rest
    decreases times
  {
    var inner := Repeat(base, times - 1) + rest;
    var value := Repeat(base, times) + rest;
    assert value == base + "_" + inner;
    DoubledOnlyIfRepeated(base, inner);
    if times == 1 {
      assert inner == rest;
    } else {
      assert inner == base + "_" + (Repeat(base, times - 2) + rest);
      assert StartsWith(inner, base + "_");
      assert value[|base| + 1..] == inner;
      CollapseRepeats(base, times - 1, rest);
    }
  }

  /** A name that does not start with the device slug follows it, unless the slug ends with it. */
  lemma {:induction false} PlainNameFollows(base: string, name: string)
    requires name != "" && name != base && !StartsWith(name, base + "_")
    ensures (exists q :: base == q + "_" + name) ==> ObjectId(base, name) == base
    ensures (forall q :: base != q + "_" + name) ==> ObjectId(base, name) == base + "_" + name
  {
    assert base + "_" + base + "_" == (base + "_") + (base + "_");
    assert Collapse(name, base) == name;
    if q :| base == q + "_" + name {
      assert base == q + ("_" + name);
    }
    if EndsWith(base, "_" + name) {
      assert base == base[..|base| - |name| - 1] + "_" + name;
    }
  }

  /** Every name is the device slug a number of times and then a rest that does not start with it;
      what becomes of the name depends on no more than that. */
  lemma {:induction false} ObjectIdExactly(base: string, suffix: string) returns (times: nat, rest: string)
    ensures suffix == Repeat(base, times) + rest && !StartsWith(rest, base + "_")
    ensures ObjectId(base, suffix) ==
            if suffix == "" || suffix == base || (times == 0 && exists q :: base == q + "_" + rest) then base
            else base + "_" + rest
  {
    times, rest := Unprefixed(base, suffix);
    if times > 0 {
      FeedbackCollapses(base, times, rest);
      assert suffix == base + "_" + (Repeat(base, times - 1) + rest);
      assert |suffix| > |base|;
    } else if suffix != "" && suffix != base {
      assert suffix == rest;
      PlainNameFollows(base, rest);
    }
  }

  lemma {:induction false} Unprefixed(base: string, suffix: string) returns (times: nat, rest: string)
    ensures suffix == Repeat(base, times) + rest && !StartsWith(rest, base + "_")
    decreases |suffix|
  {
    if StartsWith(suffix, base + "_") {
      times, rest := Unprefixed(base, suffix[|base| + 1..]);
      assert suffix == base + "_" + suffix[|base| + 1..];
      times := times + 1;
      assert Repeat(base, times) + rest == base + "_" + (Repeat(base, times - 1) + rest);
    } else {
      times, rest := 0, suffix;
    }
  }
}
