/** Small vocabulary shared by the other modules. */
module Prelude {

  datatype Option<+T> = None | Some(value: T)

  /** The elements of a list, as a set. */
  ghost function SetOf<T>(s: seq<T>): set<T> {
    set x | x in s
  }

  ghost function Pick<T>(s: set<T>): (x: T)
    requires s != {}
    ensures x in s
  {
    var x :| x in s;
    x
  }

  /** No element occurs twice. */
  ghost predicate NoDup<T>(s: seq<T>) {
    forall i, j | 0 <= i < j < |s| :: s[i] != s[j]
  }

  /** `order` is one of the orders in which a Go `range` over a map with these keys may visit them. */
  ghost predicate Enumerates<T>(order: seq<T>, keys: set<T>) {
    NoDup(order) && SetOf(order) == keys
  }

  /** The text in front of the first colon. */
  function BeforeColon(text: string): string {
    if text == "" || text[0] == ':' then "" else [text[0]] + BeforeColon(text[1..])
  }

  /** It is what stands in front of the first colon, or everything if there is none. */
  lemma {:induction false} BeforeColonTells(text: string)
    ensures var p := BeforeColon(text); ':' !in p && (text == p || p + ":" <= text)
  {
    if text != "" && text[0] != ':' {
      BeforeColonTells(text[1..]);
      assert text == [text[0]] + text[1..];
    }
  }

  /** `part` occurs somewhere in `text`. */
  predicate Contains(text: string, part: string) {
    part <= text || (text != "" && Contains(text[1..], part))
  }

  ghost predicate OccursAt(text: string, part: string, i: nat) {
    i + |part| <= |text| && text[i..i + |part|] == part
  }

  lemma {:induction false} ContainsExactlyWhen(text: string, part: string)
    ensures Contains(text, part) <==> exists i :: OccursAt(text, part, i)
  {
    if part <= text {
      assert OccursAt(text, part, 0);
    } else if text != "" {
      ContainsExactlyWhen(text[1..], part);
      if i: nat :| OccursAt(text[1..], part, i) {
        assert text[i + 1..i + 1 + |part|] == text[1..][i..i + |part|];
        assert OccursAt(text, part, i + 1);
      }
      if i: nat :| OccursAt(text, part, i) {
        assert i > 0;
        assert text[1..][i - 1..i - 1 + |part|] == text[i..i + |part|];
        assert OccursAt(text[1..], part, i - 1);
      }
    }
  }
}
