/**
  The analytics session identity kept in `localStorage`: a session id that
  is created on first use and then reused, and the optional user id.

  `Math.random()` is not modelled: the random draws arrive as a sequence of
  nibbles, one per placeholder of the id template, in the order the template
  is filled.
 */
module Session {
  import opened WebStorage

  const SessionIdKey: string := "session_id"
  const UserIdKey: string := "user_id"
  const SessionIdTemplate: string := "xxxx-xxxx-xxxx-xxxx"

  /** One random draw, `Math.random() * 16 | 0`. */
  type Nibble = n: int | 0 <= n < 16

  /** A digit `Number.prototype.toString(16)` can produce: `0-9` or `a-f`. */
  predicate IsLowerHex(c: char) {
    '0' <= c <= '9' || 'a' <= c <= 'f'
  }

  /** The number a lowercase hexadecimal digit stands for. */
  function HexValue(c: char): (n: Nibble)
    requires IsLowerHex(c)
  {
    if c <= '9' then c as int - '0' as int else c as int - 'a' as int + 10
  }

  /** `n.toString(16)` for a nibble: one lowercase hexadecimal digit. */
  function HexDigit(n: Nibble): (c: char)
    ensures IsLowerHex(c)
    ensures HexValue(c) == n
  {
    if n < 10 then ('0' as int + n) as char else ('a' as int + n - 10) as char
  }

  /** The number of matches of `/[x]/g` in `t`. */
  function Placeholders(t: string): nat {
    if t == [] then 0 else (if t[0] == 'x' then 1 else 0) + Placeholders(t[1..])
  }

  lemma {:induction false} PlaceholdersConcat(a: string, b: string)
    ensures Placeholders(a + b) == Placeholders(a) + Placeholders(b)
  {
    if a == [] {
      assert a + b == b;
    } else {
      assert (a + b)[1..] == a[1..] + b;
      PlaceholdersConcat(a[1..], b);
    }
  }

  /** The session id template has a dash at 4, 9 and 14 and a placeholder elsewhere. */
  lemma SessionIdTemplateShape()
    ensures |SessionIdTemplate| == 19
    ensures forall i | 0 <= i < 19 :: SessionIdTemplate[i] == if i == 4 || i == 9 || i == 14 then '-' else 'x'
  {
  }

  /** The session id template asks for sixteen draws. */
  lemma SessionIdTemplatePlaceholders()
    ensures Placeholders(SessionIdTemplate) == 16
  {
    var group := "xxxx";
    assert Placeholders(group) == 4;
    assert Placeholders("-" + group) == 4;
    assert SessionIdTemplate == group + ("-" + group) + ("-" + group) + ("-" + group);
    PlaceholdersConcat(group, "-" + group);
    PlaceholdersConcat(group + ("-" + group), "-" + group);
    PlaceholdersConcat(group + ("-" + group) + ("-" + group), "-" + group);
  }

  /**
    `t.replace(/[x]/g, draw)`: every `x` is replaced, left to right, by the
    hexadecimal digit of the next nibble; every other character is kept.
   */
  function FillTemplate(t: string, nibbles: seq<Nibble>): (r: string)
    requires |nibbles| == Placeholders(t)
    ensures |r| == |t|
    ensures forall i | 0 <= i < |t| :: if t[i] == 'x' then IsLowerHex(r[i]) else r[i] == t[i]
  {
    if t == [] then []
    else if t[0] == 'x' then [HexDigit(nibbles[0])] + FillTemplate(t[1..], nibbles[1..])
    else [t[0]] + FillTemplate(t[1..], nibbles)
  }

  /** Reads the nibbles back from the placeholder positions of a filled template. */
  function TemplateNibbles(t: string, s: string): (nibbles: seq<Nibble>)
    requires |s| == |t|
    requires forall i | 0 <= i < |t| && t[i] == 'x' :: IsLowerHex(s[i])
    ensures |nibbles| == Placeholders(t)
  {
    if t == [] then []
    else if t[0] == 'x' then [HexValue(s[0])] + TemplateNibbles(t[1..], s[1..])
    else TemplateNibbles(t[1..], s[1..])
  }

  /** Filling a template loses nothing: the draws can be read back from the result. */
  lemma {:induction false} TemplateNibblesOfFill(t: string, nibbles: seq<Nibble>)
    requires |nibbles| == Placeholders(t)
    ensures TemplateNibbles(t, FillTemplate(t, nibbles)) == nibbles
  {
    if t != [] {
      var r := FillTemplate(t, nibbles);
      if t[0] == 'x' {
        assert r[1..] == FillTemplate(t[1..], nibbles[1..]);
        TemplateNibblesOfFill(t[1..], nibbles[1..]);
      } else {
        assert r[1..] == FillTemplate(t[1..], nibbles);
        TemplateNibblesOfFill(t[1..], nibbles);
      }
    }
  }

  /**
    `generateSessionId()`: nineteen characters, dashes at 4, 9 and 14, a
    lowercase hexadecimal digit everywhere else.
   */
  function GenerateSessionId(nibbles: seq<Nibble>): (id: string)
    requires |nibbles| == 16
    ensures |id| == 19
    ensures id[4] == '-' && id[9] == '-' && id[14] == '-'
    ensures forall i | 0 <= i < 19 && i != 4 && i != 9 && i != 14 :: IsLowerHex(id[i])
  {
    SessionIdTemplateShape();
    SessionIdTemplatePlaceholders();
    FillTemplate(SessionIdTemplate, nibbles)
  }

  /** Different draws never produce the same session id. */
  lemma GenerateSessionIdInjective(a: seq<Nibble>, b: seq<Nibble>)
    requires |a| == 16 && |b| == 16
    ensures GenerateSessionId(a) == GenerateSessionId(b) ==> a == b
  {
    SessionIdTemplatePlaceholders();
    TemplateNibblesOfFill(SessionIdTemplate, a);
    TemplateNibblesOfFill(SessionIdTemplate, b);
  }

  /** `getUserId()`: `localStorage.getItem('user_id') || null`. */
  function GetUserId(storage: LocalStorage): (r: Option<string>)
    reads storage
    ensures r.Some? <==> Present(storage.items, UserIdKey)
    ensures r.Some? ==> r.value == storage.items[UserIdKey]
  {
    Or(storage.GetItem(UserIdKey), None)
  }

  /** What one `getSessionId()` call returns and what it leaves in storage. */
  datatype SessionIdEffect = SessionIdEffect(id: string, items: map<string, string>)

  /**
    The specification of `getSessionId()` on a given storage: a present id is
    returned and nothing is written; otherwise a freshly generated id is
    stored under `session_id` and returned. Either way the id is then present
    under `session_id`, and no other key changes.
   */
  function GetSessionIdEffect(items: map<string, string>, nibbles: seq<Nibble>): (r: SessionIdEffect)
    requires |nibbles| == 16
    ensures Present(r.items, SessionIdKey) && r.items[SessionIdKey] == r.id
    ensures Present(items, SessionIdKey) ==> r.id == items[SessionIdKey] && r.items == items
    ensures !Present(items, SessionIdKey) ==> r.id == GenerateSessionId(nibbles)
    ensures r.items.Keys == items.Keys + {SessionIdKey}
    ensures forall k | k != SessionIdKey :: SameAt(items, r.items, k)
  {
    if Present(items, SessionIdKey) then SessionIdEffect(items[SessionIdKey], items)
    else
      var id := GenerateSessionId(nibbles);
      SessionIdEffect(id, items[SessionIdKey := id])
  }

  /** A second call returns the same id and writes nothing, whatever it draws. */
  lemma GetSessionIdIdempotent(items: map<string, string>, first: seq<Nibble>, second: seq<Nibble>)
    requires |first| == 16 && |second| == 16
    ensures GetSessionIdEffect(GetSessionIdEffect(items, first).items, second) == GetSessionIdEffect(items, first)
  {
  }

  /** `getSessionId()`: get-or-create over the shared `localStorage`. */
  method GetSessionId(storage: LocalStorage, nibbles: seq<Nibble>) returns (sessionId: string)
    requires |nibbles| == 16
    modifies storage
    ensures sessionId == GetSessionIdEffect(old(storage.items), nibbles).id
    ensures storage.items == GetSessionIdEffect(old(storage.items), nibbles).items
  {
    var item := storage.GetItem(SessionIdKey);
    if !Truthy(item) {
      item := Some(GenerateSessionId(nibbles));
      storage.SetItem(SessionIdKey, item.value);
    }
    sessionId := item.value;
  }
}
