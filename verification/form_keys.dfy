/**
 * The identity of a branch's sidebar form (`renderizar_ramas`): the route
 * string "Idea Principal -> Rama 2 -> Rama 1 ..." built from the 1-based
 * sibling positions on the way down, and the widget keys derived from it.
 * Widgets keep their state under these keys, so two branches sharing a key
 * would share a form; the lemmas below show no two branches do.
 */
module FormKeys {

  /** The route of the root's form, which every branch route extends. */
  const RootRoute: string := "Idea Principal"

  /** The separator put before each 1-based position. */
  const Step: string := " -> Rama "

  predicate IsDigit(c: char) {
    '0' <= c <= '9'
  }

  /** The decimal digit for `d`. */
  function Digit(d: nat): (c: char)
    requires d < 10
    ensures IsDigit(c) && c as int - '0' as int == d
  {
    ('0' as int + d) as char
  }

  /** The number a string of decimal digits denotes, read from the left. */
  function DigitsValue(s: string): nat
    requires forall i :: 0 <= i < |s| ==> IsDigit(s[i])
  {
    if s == [] then 0
    else
      assert IsDigit(s[|s| - 1]);
      DigitsValue(s[..|s| - 1]) * 10 + (s[|s| - 1] as int - '0' as int)
  }

  /** The decimal notation of `n` (what an f-string prints): digits denoting `n`, without leading zeros. */
  function Dec(n: nat): (s: string)
    ensures |s| >= 1 && forall i :: 0 <= i < |s| ==> IsDigit(s[i])
    ensures DigitsValue(s) == n
    ensures |s| == 1 || s[0] != '0'
    ensures n >= 10 <==> |s| >= 2
  {
    if n < 10 then [Digit(n)]
    else
      var s := Dec(n / 10) + [Digit(n % 10)];
      assert s[..|s| - 1] == Dec(n / 10);
      s
  }

  /** Different numbers print differently. */
  lemma {:induction false} DecInjective(a: nat, b: nat)
    ensures Dec(a) == Dec(b) <==> a == b
    decreases a
  {
    if Dec(a) == Dec(b) && a >= 10 && b >= 10 {
      var sa, sb := Dec(a), Dec(b);
      assert sa[|sa| - 1] == Digit(a % 10) && sb[|sb| - 1] == Digit(b % 10);
      assert sa[..|sa| - 1] == Dec(a / 10) && sb[..|sb| - 1] == Dec(b / 10);
      DecInjective(a / 10, b / 10);
    }
  }

  /** The route of the node the 0-based sibling path `p` addresses (line 63, applied once per level). */
  function Route(p: seq<nat>): (r: string)
    ensures RootRoute <= r
    ensures p != [] ==> |r| > |RootRoute|
  {
    if p == [] then RootRoute else Route(p[..|p| - 1]) + Step + Dec(p[|p| - 1] + 1)
  }

  /** A separator followed by a shorter run of digits cannot end the same string as one followed by a longer run. */
  lemma ShorterDigitsApart(x: string, d: string, y: string, e: string)
    requires forall i :: 0 <= i < |e| ==> IsDigit(e[i])
    requires |d| < |e|
    ensures x + Step + d != y + Step + e
  {
    var s, t := x + Step + d, y + Step + e;
    if |s| == |t| {
      assert s[|s| - |d| - 1] == Step[|Step| - 1] == ' ';
      assert t[|t| - |d| - 1] == e[|e| - |d| - 1];
    }
  }

  /** Two strings that each end in the separator and a run of digits split there the same way. */
  lemma SplitAtDigits(x: string, d: string, y: string, e: string)
    requires forall i :: 0 <= i < |d| ==> IsDigit(d[i])
    requires forall i :: 0 <= i < |e| ==> IsDigit(e[i])
    requires x + Step + d == y + Step + e
    ensures x == y && d == e
  {
    if |d| < |e| {
      ShorterDigitsApart(x, d, y, e);
    } else if |e| < |d| {
      ShorterDigitsApart(y, e, x, d);
    } else {
      var s := x + Step + d;
      assert d == s[|s| - |d|..] == e;
      assert x == s[..|x|] == y;
    }
  }

  /** Different paths have different routes. */
  lemma {:induction false} RouteInjective(p: seq<nat>, q: seq<nat>)
    ensures Route(p) == Route(q) <==> p == q
    decreases |p|
  {
    if Route(p) == Route(q) && p != [] && q != [] {
      var pi, qi := p[..|p| - 1], q[..|q| - 1];
      SplitAtDigits(Route(pi), Dec(p[|p| - 1] + 1), Route(qi), Dec(q[|q| - 1] + 1));
      DecInjective(p[|p| - 1] + 1, q[|q| - 1] + 1);
      RouteInjective(pi, qi);
      assert p == pi + [p[|p| - 1]] && q == qi + [q[|q| - 1]];
    }
  }

  /** The three keyed widgets of a branch's form. */
  datatype Widget = NameBox | ImageBox | AddButton

  function KeyPrefix(w: Widget): string {
    match w
    case NameBox => "nombre_"
    case ImageBox => "imagen_"
    case AddButton => "boton_agregar_"
  }

  /** The key of widget `w` in the form of the branch at `p`. */
  function BranchKey(w: Widget, p: seq<nat>): string
    requires p != []
  {
    KeyPrefix(w) + Route(p)
  }

  /** The keys of the root's name box and image upload. */
  const RootNameKey: string := "nombre_principal"
  const RootImageKey: string := "imagen_principal"

  /** Keys of different widgets differ in their first letter. */
  lemma PrefixesApart(v: Widget, w: Widget, x: string, y: string)
    requires v != w
    ensures KeyPrefix(v) + x != KeyPrefix(w) + y
  {
    var s, t := KeyPrefix(v) + x, KeyPrefix(w) + y;
    assert s[0] == KeyPrefix(v)[0] && t[0] == KeyPrefix(w)[0];
    assert s[0] != t[0];
  }

  /** No branch key equals a key of the root's form: they differ at the first letter or right after the prefix. */
  lemma BranchKeyNotRoot(v: Widget, p: seq<nat>)
    requires p != []
    ensures BranchKey(v, p) != RootNameKey && BranchKey(v, p) != RootImageKey
  {
    var s, r := BranchKey(v, p), Route(p);
    assert r[0] == RootRoute[0] == 'I';
    if v == AddButton {
      assert s[0] == 'b' && RootNameKey[0] == 'n' && RootImageKey[0] == 'i';
    } else {
      assert |KeyPrefix(v)| == 7 && s[7] == r[0];
      assert RootNameKey[7] == 'p' && RootImageKey[7] == 'p';
    }
  }

  /**
   * Every keyed widget of every branch form has its own key: two keys are
   * equal exactly when they belong to the same widget of the same branch,
   * and none equals a key of the root's form.
   */
  lemma BranchKeysDistinct(v: Widget, p: seq<nat>, w: Widget, q: seq<nat>)
    requires p != [] && q != []
    ensures BranchKey(v, p) == BranchKey(w, q) <==> v == w && p == q
    ensures BranchKey(v, p) != RootNameKey && BranchKey(v, p) != RootImageKey
  {
    if v != w {
      PrefixesApart(v, w, Route(p), Route(q));
    } else if BranchKey(v, p) == BranchKey(w, q) {
      var k := |KeyPrefix(v)|;
      assert Route(p) == BranchKey(v, p)[k..];
      assert Route(q) == BranchKey(w, q)[k..];
      RouteInjective(p, q);
    }
    BranchKeyNotRoot(v, p);
  }
}
