/** The wrapper's own mongod flags merged with the ones it was given: mongod refuses a
    repeated option, and `bind_ip` beside `bind_ip_all`. */
module Passthrough {
  import opened Decimal
  import opened Wrappers
  import opened Text

  /** What follows the one or two dashes of a token. */
  function Body(token: string): string
    requires token != [] && token[0] == '-'
  {
    if |token| > 1 && token[1] == '-' then token[2..] else token[1..]
  }

  /** A token without a dash, or with a digit after it, is no option. */
  predicate IsOption(token: string) {
    token != [] && token[0] == '-' && Body(token) != [] && !IsDigit(Body(token)[0])
  }

  /** The name an option token carries, up to any equals sign. */
  function OptionName(token: string): (name: Option<string>)
    ensures name.Some? <==> IsOption(token)
  {
    if IsOption(token) then Some(Split(Body(token), '=')[0]) else None
  }

  /** A token names an option exactly if one or two dashes are followed by something that
      starts with no digit; the name ends at the first equals sign. */
  lemma NamesExactly(token: string, name: string)
    ensures OptionName(token) == Some(name) <==>
            exists body :: Dashed(token, body) && body != [] && !('0' <= body[0] <= '9')
                           && Free(name, '=') && (body == name || name + ['='] <= body)
  {
    if OptionName(token) == Some(name) {
      DashedBody(token);
      FirstPart(Body(token), '=');
    }
    if body :| Dashed(token, body) && body != [] && !('0' <= body[0] <= '9')
               && Free(name, '=') && (body == name || name + ['='] <= body)
    {
      BodyOfDashed(token, body);
      NameOfBody(body, name);
    }
  }

  lemma DashedBody(token: string)
    requires IsOption(token)
    ensures Dashed(token, Body(token))
  {
    assert token == (if |token| > 1 && token[1] == '-' then "--" else "-") + Body(token);
  }

  lemma BodyOfDashed(token: string, body: string)
    requires Dashed(token, body) && body != []
    ensures token != [] && token[0] == '-' && Body(token) == body
  {
    if token == "--" + body {
      assert token[2..] == body;
    } else {
      assert token[1..] == body && token[1] == body[0];
    }
  }

  lemma NameOfBody(body: string, name: string)
    requires Free(name, '=') && (body == name || name + ['='] <= body)
    ensures Split(body, '=')[0] == name
  {
    if body == name {
      SplitOfFree(name, '=');
    } else {
      assert body == name + ['='] + body[|name| + 1..];
      SplitAfterPart(name, body[|name| + 1..], '=');
    }
  }

  /** Two dashes and the body, or one and a body that starts with none. */
  predicate Dashed(token: string, body: string) {
    token == "--" + body || (token == "-" + body && (body == [] || body[0] != '-'))
  }

  predicate ArgsSet(args: seq<string>, name: string) {
    exists i | 0 <= i < |args| :: OptionName(args[i]) == Some(name)
  }

  // ---------------------------------------------------------------- values

  /** What follows the first equals sign. */
  predicate SplitsAt(token: string, before: string, value: string) {
    token == before + "=" + value && Free(before, '=')
  }

  predicate FirstNamed(args: seq<string>, name: string, k: int) {
    0 <= k < |args| && OptionName(args[k]) == Some(name) && forall i | 0 <= i < k :: OptionName(args[i]) != Some(name)
  }

  method SplitOnce(token: string) returns (value: Option<string>)
    ensures value.None? <==> Free(token, '=')
    ensures value.Some? ==> exists i | 0 <= i < |token| :: SplitsAt(token, token[..i], value.value)
  {
    for i := 0 to |token|
      invariant Free(token[..i], '=')
    {
      if token[i] == '=' {
        assert SplitsAt(token, token[..i], token[i + 1..]);
        return Some(token[i + 1..]);
      }
      assert token[..i + 1] == token[..i] + [token[i]];
    }
    assert token[..|token|] == token;
    return None;
  }

  predicate ValueAt(args: seq<string>, k: int, value: string)
    requires 0 <= k < |args|
  {
    if Free(args[k], '=') then k + 1 < |args| && value == args[k + 1]
    else exists i | 0 <= i < |args[k]| :: SplitsAt(args[k], args[k][..i], value)
  }

  /** The value of the first token of that name: what follows its equals sign, and
      without one the next token, whatever it is. */
  method ArgValue(args: seq<string>, name: string) returns (value: Option<string>)
    ensures value.Some? ==> exists k :: FirstNamed(args, name, k) && ValueAt(args, k, value.value)
    ensures value.None? <==>
              !ArgsSet(args, name) || (FirstNamed(args, name, |args| - 1) && Free(args[|args| - 1], '='))
  {
    for i := 0 to |args|
      invariant forall k | 0 <= k < i :: OptionName(args[k]) != Some(name)
    {
      if OptionName(args[i]) != Some(name) { continue; }
      assert FirstNamed(args, name, i);
      value := SplitOnce(args[i]);
      if value.Some? { return; }
      if i + 1 < |args| { return Some(args[i + 1]); }
      return None;
    }
    return None;
  }

  /** Either spelling of an option with a value is read back as that value. */
  lemma NameOfSpelling(name: string, value: string)
    requires name != [] && !IsDigit(name[0]) && name[0] != '-' && Free(name, '=')
    ensures OptionName("--" + name) == Some(name) && OptionName("-" + name) == Some(name)
    ensures OptionName("--" + name + "=" + value) == Some(name)
    ensures Free("--" + name, '=') && SplitsAt("--" + name + "=" + value, "--" + name, value)
  {
    assert ("--" + name)[2..] == name && ("-" + name)[1..] == name;
    assert ("--" + name + "=" + value)[2..] == name + ['='] + value;
    SplitOfFree(name, '=');
    SplitAfterPart(name, value, '=');
  }

  // ---------------------------------------------------------------- merging

  /** An own flag with its paired value, or a token that belongs to no flag. */
  datatype Item = Bare(token: string) | Flag(flag: string, value: Option<string>)

  function Group(own: seq<string>): seq<Item> {
    if own == [] then []
    else if !IsOption(own[0]) then [Bare(own[0])] + Group(own[1..])
    else if |own| > 1 && !IsOption(own[1]) then [Flag(own[0], Some(own[1]))] + Group(own[2..])
    else [Flag(own[0], None)] + Group(own[1..])
  }

  function Tokens(item: Item): seq<string> {
    match item
    case Bare(token) => [token]
    case Flag(flag, None) => [flag]
    case Flag(flag, Some(value)) => [flag, value]
  }

  function Flatten(items: seq<Item>): seq<string> {
    if items == [] then [] else Tokens(items[0]) + Flatten(items[1..])
  }

  predicate Overridden(name: string, args: seq<string>) {
    || ArgsSet(args, name)
    || (name == "bind_ip_all" && ArgsSet(args, "bind_ip"))
    || (name == "bind_ip" && ArgsSet(args, "bind_ip_all"))
  }

  predicate Yields(item: Item, args: seq<string>) {
    item.Flag? && IsOption(item.flag) && Overridden(OptionName(item.flag).value, args)
  }

  function Kept(items: seq<Item>, args: seq<string>): seq<Item> {
    if items == [] then []
    else (if Yields(items[0], args) then [] else [items[0]]) + Kept(items[1..], args)
  }

  function Merge(own: seq<string>, args: seq<string>): seq<string> {
    Flatten(Kept(Group(own), args))
  }

  function TokensKept(item: Item, args: seq<string>): seq<string> {
    if Yields(item, args) then [] else Tokens(item)
  }

  lemma KeptHead(items: seq<Item>, args: seq<string>)
    requires items != []
    ensures Flatten(Kept(items, args)) == TokensKept(items[0], args) + Flatten(Kept(items[1..], args))
  {
    var kept := Kept(items, args);
    if !Yields(items[0], args) {
      assert kept == [items[0]] + Kept(items[1..], args);
      assert kept[1..] == Kept(items[1..], args);
    } else {
      assert kept == Kept(items[1..], args);
    }
  }

  /** How many tokens the item that starts at `i` has. */
  function ItemLength(own: seq<string>, i: nat): (n: nat)
    requires i < |own|
    ensures i + n <= |own|
  {
    if IsOption(own[i]) && i + 1 < |own| && !IsOption(own[i + 1]) then 2 else 1
  }

  /** The merge of the tokens from `i` on, item by item. */
  function MergeFrom(own: seq<string>, args: seq<string>, i: nat): seq<string>
    requires i <= |own|
    decreases |own| - i
  {
    if i == |own| then []
    else
      var next := i + ItemLength(own, i);
      (if IsOption(own[i]) && Overridden(OptionName(own[i]).value, args) then [] else own[i..next])
      + MergeFrom(own, args, next)
  }

  lemma GroupHead(own: seq<string>)
    requires own != []
    ensures var items, n := Group(own), ItemLength(own, 0);
            && items != [] && Tokens(items[0]) == own[..n] && items[1..] == Group(own[n..])
            && (items[0].Flag? <==> IsOption(own[0])) && (items[0].Flag? ==> items[0].flag == own[0])
  {
  }

  lemma {:induction false} MergeFromIsMerge(own: seq<string>, args: seq<string>, i: nat)
    requires i <= |own|
    ensures MergeFrom(own, args, i) == Merge(own[i..], args)
    decreases |own| - i
  {
    if i < |own| {
      var rest, n := own[i..], ItemLength(own, i);
      MergeFromIsMerge(own, args, i + n);
      assert ItemLength(rest, 0) == n && rest[n..] == own[i + n..] && rest[..n] == own[i..i + n];
      GroupHead(rest);
      KeptHead(Group(rest), args);
    }
  }

  method IsArgSet(args: seq<string>, name: string) returns (found: bool)
    ensures found <==> ArgsSet(args, name)
  {
    for i := 0 to |args|
      invariant forall k | 0 <= k < i :: OptionName(args[k]) != Some(name)
    {
      if OptionName(args[i]) == Some(name) { return true; }
    }
    return false;
  }

  method IsOverridden(name: string, args: seq<string>) returns (overridden: bool)
    ensures overridden <==> Overridden(name, args)
  {
    overridden := IsArgSet(args, name);
    if !overridden && name == "bind_ip_all" {
      overridden := IsArgSet(args, "bind_ip");
    } else if !overridden && name == "bind_ip" {
      overridden := IsArgSet(args, "bind_ip_all");
    }
  }

  lemma Regrouped(a: seq<string>, b: seq<string>, c: seq<string>)
    ensures a + (b + c) == a + b + c
  {
  }

  lemma OneToken(own: seq<string>, i: nat)
    requires i < |own|
    ensures own[i..i + 1] == [own[i]]
    ensures i + 1 < |own| ==> own[i..i + 2] == [own[i]] + [own[i + 1]]
  {
  }

  /** One item done: `piece` is what it adds to the output. */
  lemma ItemDone(own: seq<string>, args: seq<string>, i: nat, next: nat, out: seq<string>, piece: seq<string>)
    requires i < |own| && next == i + ItemLength(own, i)
    requires IsOption(own[i]) ==> !Overridden(OptionName(own[i]).value, args)
    requires piece == own[i..next]
    ensures out + piece + MergeFrom(own, args, next) == out + MergeFrom(own, args, i)
  {
    var rest := MergeFrom(own, args, next);
    assert MergeFrom(own, args, i) == piece + rest;
    assert out + (piece + rest) == out + piece + rest;
  }

  lemma ItemDropped(own: seq<string>, args: seq<string>, i: nat, next: nat)
    requires i < |own| && next == i + ItemLength(own, i)
    requires IsOption(own[i]) && Overridden(OptionName(own[i]).value, args)
    ensures MergeFrom(own, args, next) == MergeFrom(own, args, i)
  {
  }

  lemma MergeFromStart(own: seq<string>, args: seq<string>, i: nat)
    requires i == 0
    ensures MergeFrom(own, args, i) == Merge(own, args)
  {
    MergeFromIsMerge(own, args, i);
    assert own[i..] == own;
  }

  method MergeOwnFlags(own: seq<string>, args: seq<string>) returns (out: seq<string>)
    ensures out == Merge(own, args)
  {
    out := [];
    var i := 0;
    MergeFromStart(own, args, i);
    while i < |own|
      invariant 0 <= i <= |own|
      invariant out + MergeFrom(own, args, i) == Merge(own, args)
      decreases |own| - i
    {
      ghost var start, before := i, out;
      OneToken(own, i);
      var flag := own[i];
      i := i + 1;
      if !IsOption(flag) {
        out := out + [flag];
        ItemDone(own, args, start, i, before, [flag]);
        continue;
      }
      var value := None;
      if i < |own| && !IsOption(own[i]) {
        value := Some(own[i]);
        i := i + 1;
      }
      var overridden := IsOverridden(OptionName(flag).value, args);
      if overridden {
        ItemDropped(own, args, start, i);
        continue;
      }
      out := out + [flag];
      if value.None? {
        ItemDone(own, args, start, i, before, [flag]);
        continue;
      }
      out := out + [value.value];
      Regrouped(before, [flag], [value.value]);
      ItemDone(own, args, start, i, before, [flag] + [value.value]);
    }
  }

  // ---------------------------------------------------------------- what the merge keeps

  predicate ItemOk(item: Item) {
    match item
    case Bare(token) => !IsOption(token)
    case Flag(flag, value) => IsOption(flag) && (value.Some? ==> !IsOption(value.value))
  }

  predicate AllOk(items: seq<Item>) {
    forall i | 0 <= i < |items| :: ItemOk(items[i])
  }

  /** Grouping loses no token and invents none. */
  lemma {:induction false} FlattenOfGroup(own: seq<string>)
    ensures Flatten(Group(own)) == own && AllOk(Group(own))
  {
    if own != [] {
      var items, n := Group(own), ItemLength(own, 0);
      GroupHead(own);
      FirstItemIsOk(own);
      FlattenOfGroup(own[n..]);
      assert own == own[..n] + own[n..];
      forall i | 0 <= i < |items| ensures ItemOk(items[i]) {
        if i > 0 {
          assert items[i] == items[1..][i - 1];
        }
      }
    }
  }

  lemma FirstItemIsOk(own: seq<string>)
    requires own != []
    ensures ItemOk(Group(own)[0])
  {
  }

  predicate ClosedAt(items: seq<Item>, i: int)
    requires 0 <= i < |items| - 1
  {
    items[i].Flag? && items[i].value.None? ==> items[i + 1].Flag?
  }

  /** Re-reading the tokens gives the same items exactly if no valueless flag stands
      right before a bare token. */
  predicate Readable(items: seq<Item>) {
    forall i | 0 <= i < |items| - 1 :: ClosedAt(items, i)
  }

  lemma ReadableAfterFirst(items: seq<Item>)
    requires items != []
    ensures Readable(items) <==> Readable(items[1..]) && (|items| > 1 ==> ClosedAt(items, 0))
  {
    var rest := items[1..];
    if Readable(rest) && (|items| > 1 ==> ClosedAt(items, 0)) {
      forall i | 0 <= i < |items| - 1 ensures ClosedAt(items, i) {
        assert i > 0 ==> ClosedAt(rest, i - 1);
      }
    }
    if Readable(items) {
      forall i | 0 <= i < |rest| - 1 ensures ClosedAt(rest, i) {
        assert ClosedAt(items, i + 1);
      }
    }
  }

  lemma {:induction false} GroupOfFlatten(items: seq<Item>)
    requires AllOk(items)
    ensures Group(Flatten(items)) == items <==> Readable(items)
  {
    if items != [] {
      var rest := items[1..];
      GroupOfFlatten(rest);
      var tokens := Flatten(items);
      assert tokens == Tokens(items[0]) + Flatten(rest);
      if rest != [] {
        assert Flatten(rest)[0] == Tokens(rest[0])[0];
        assert rest[0] == items[1];
      }
      if items[0].Flag? && items[0].value.None? && rest != [] && rest[0].Bare? {
        assert Group(tokens)[0].value.Some?;
        assert !ClosedAt(items, 0);
      } else {
        assert tokens[|Tokens(items[0])|..] == Flatten(rest);
        assert Group(tokens) == [items[0]] + Group(Flatten(rest));
        assert Group(tokens)[1..] == Group(Flatten(rest));
        assert ([items[0]] + rest) == items;
        ReadableAfterFirst(items);
      }
    }
  }

  lemma {:induction false} KeptMeans(items: seq<Item>, args: seq<string>)
    ensures forall item :: item in Kept(items, args) <==> item in items && !Yields(item, args)
  {
    if items != [] {
      KeptMeans(items[1..], args);
    }
  }

  /** An own flag stays exactly if no arg names it, nor the other side of the bind pair. */
  predicate Survives(flag: string, args: seq<string>) {
    && (forall i | 0 <= i < |args| :: OptionName(args[i]) != OptionName(flag))
    && (OptionName(flag) == Some("bind_ip") ==> forall i | 0 <= i < |args| :: OptionName(args[i]) != Some("bind_ip_all"))
    && (OptionName(flag) == Some("bind_ip_all") ==> forall i | 0 <= i < |args| :: OptionName(args[i]) != Some("bind_ip"))
  }

  lemma KeptExactly(own: seq<string>, args: seq<string>, item: Item)
    requires item in Group(own)
    ensures item in Kept(Group(own), args) <==> item.Bare? || Survives(item.flag, args)
  {
    KeptMeans(Group(own), args);
    if item.Flag? {
      ItemOfGroup(own, item);
    }
  }

  /** What is kept stays in its order. */
  lemma {:induction false} KeptInOrder(front: seq<Item>, back: seq<Item>, args: seq<string>)
    ensures Kept(front + back, args) == Kept(front, args) + Kept(back, args)
  {
    if front == [] {
      assert front + back == back;
    } else {
      assert (front + back)[1..] == front[1..] + back && (front + back)[0] == front[0];
      KeptInOrder(front[1..], back, args);
    }
  }

  lemma {:induction false} KeptAll(items: seq<Item>, args: seq<string>)
    requires forall item | item in items :: !Yields(item, args)
    ensures Kept(items, args) == items
  {
    if items != [] {
      KeptAll(items[1..], args);
    }
  }

  lemma {:induction false} TokenOfItem(items: seq<Item>, token: string)
    requires AllOk(items) && token in Flatten(items) && IsOption(token)
    ensures exists item :: item in items && item.Flag? && item.flag == token
  {
    if token in Flatten(items[1..]) && token !in Tokens(items[0]) {
      TokenOfItem(items[1..], token);
      var item :| item in items[1..] && item.Flag? && item.flag == token;
      assert item in items;
    } else {
      assert items[0] in items;
    }
  }

  lemma {:induction false} ItemOfGroup(own: seq<string>, item: Item)
    requires item in Group(own) && item.Flag?
    ensures item.flag in own && IsOption(item.flag)
  {
    var items := Group(own);
    var n := |Tokens(items[0])|;
    if item != items[0] {
      assert item in Group(own[n..]);
      ItemOfGroup(own[n..], item);
    }
  }

  lemma KeptIsOk(items: seq<Item>, args: seq<string>)
    requires AllOk(items)
    ensures AllOk(Kept(items, args))
  {
  }

  /** The merged flags name no option the args set, and no side of the bind pair whose
      other side the args set: mongod finds nothing to refuse between the two. */
  lemma NothingLeftToRefuse(own: seq<string>, args: seq<string>, token: string)
    requires token in Merge(own, args) && IsOption(token)
    ensures token in own
    ensures !ArgsSet(args, OptionName(token).value)
    ensures OptionName(token).value == "bind_ip" ==> !ArgsSet(args, "bind_ip_all")
    ensures OptionName(token).value == "bind_ip_all" ==> !ArgsSet(args, "bind_ip")
  {
    var items := Group(own);
    FlattenOfGroup(own);
    KeptIsOk(items, args);
    TokenOfItem(Kept(items, args), token);
    var item :| item in Kept(items, args) && item.Flag? && item.flag == token;
    KeptMeans(items, args);
    ItemOfGroup(own, item);
  }

  /** Without args nothing is dropped; merging again with the same args drops nothing
      more. */
  lemma MergeKeepsWhatIsNotOverridden(own: seq<string>, args: seq<string>)
    ensures Merge(own, []) == own
    ensures Merge(Merge(own, args), args) == Merge(own, args)
  {
    NothingOverridden(own, []);
    var out := Merge(own, args);
    forall token | token in out && IsOption(token) ensures !Overridden(OptionName(token).value, args) {
      NothingLeftToRefuse(own, args, token);
    }
    NothingOverridden(out, args);
  }

  lemma NothingOverridden(own: seq<string>, args: seq<string>)
    requires forall token | token in own && IsOption(token) :: !Overridden(OptionName(token).value, args)
    ensures Merge(own, args) == own
  {
    forall item | item in Group(own) ensures !Yields(item, args) {
      if item.Flag? {
        ItemOfGroup(own, item);
      }
    }
    KeptAll(Group(own), args);
    FlattenOfGroup(own);
  }

  /** Every own flag the args do not override comes through with its own value, in
      order, and the merged flags read that way, exactly if no bare token came to stand
      behind a valueless flag. */
  lemma MergedFlagsReadAsKept(own: seq<string>, args: seq<string>)
    ensures Group(Merge(own, args)) == Kept(Group(own), args) <==> Readable(Kept(Group(own), args))
  {
    FlattenOfGroup(own);
    KeptIsOk(Group(own), args);
    GroupOfFlatten(Kept(Group(own), args));
  }

  /** Own flags without a bare token always read as kept. */
  lemma OwnFlagsReadAsKept(own: seq<string>, args: seq<string>)
    requires forall item | item in Group(own) :: item.Flag?
    ensures Group(Merge(own, args)) == Kept(Group(own), args)
  {
    KeptMeans(Group(own), args);
    forall i | 0 <= i < |Kept(Group(own), args)| ensures Kept(Group(own), args)[i].Flag? {
      assert Kept(Group(own), args)[i] in Group(own);
    }
    MergedFlagsReadAsKept(own, args);
  }

  predicate NoRepeats(tokens: seq<string>) {
    forall i, j | 0 <= i < j < |tokens| :: IsOption(tokens[i]) ==> OptionName(tokens[i]) != OptionName(tokens[j])
  }

  lemma ThinnerTail(front: seq<string>, tail: seq<string>, rest: seq<string>)
    requires NoRepeats(front + tail) && NoRepeats(rest)
    requires forall token | token in rest :: token in tail
    ensures NoRepeats(tail) && NoRepeats(front + rest)
  {
    var all, out, n := front + tail, front + rest, |front|;
    forall i, j | 0 <= i < j < |tail| && IsOption(tail[i]) ensures OptionName(tail[i]) != OptionName(tail[j]) {
      assert all[n + i] == tail[i] && all[n + j] == tail[j];
    }
    forall i, j | 0 <= i < j < |out| && IsOption(out[i]) ensures OptionName(out[i]) != OptionName(out[j]) {
      if i >= n {
        assert out[i] == rest[i - n] && out[j] == rest[j - n];
      } else if j < n {
        assert out[i] == all[i] && out[j] == all[j];
      } else {
        assert out[j] == rest[j - n] && rest[j - n] in rest && out[j] in tail;
        var k :| 0 <= k < |tail| && tail[k] == out[j];
        assert all[n + k] == out[j] && all[i] == out[i];
      }
    }
  }

  lemma {:induction false} FlattenHasNoRepeats(items: seq<Item>, args: seq<string>)
    requires NoRepeats(Flatten(items))
    ensures NoRepeats(Flatten(Kept(items, args)))
    ensures forall token | token in Flatten(Kept(items, args)) :: token in Flatten(items)
  {
    if items != [] {
      var front, tail := Tokens(items[0]), Flatten(items[1..]);
      ThinnerTail(front, tail, []);
      FlattenHasNoRepeats(items[1..], args);
      KeptHead(items, args);
      ThinnerTail(front, tail, Flatten(Kept(items[1..], args)));
    }
  }

  lemma NoRepeatsAcross(first: seq<string>, second: seq<string>)
    requires NoRepeats(first) && NoRepeats(second)
    requires forall i | 0 <= i < |first| && IsOption(first[i]) :: !ArgsSet(second, OptionName(first[i]).value)
    ensures NoRepeats(first + second)
  {
  }

  /** What mongod is started with repeats no option unless one side did already. */
  lemma NoOptionTwice(own: seq<string>, args: seq<string>)
    requires NoRepeats(own) && NoRepeats(args)
    ensures NoRepeats(Merge(own, args) + args)
  {
    FlattenOfGroup(own);
    FlattenHasNoRepeats(Group(own), args);
    var out := Merge(own, args);
    forall i | 0 <= i < |out| && IsOption(out[i]) ensures !ArgsSet(args, OptionName(out[i]).value) {
      NothingLeftToRefuse(own, args, out[i]);
    }
    NoRepeatsAcross(out, args);
  }
}
