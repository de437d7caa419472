/**
 * The render policy, `shouldRender` (src/index.ts:166-187), and the settings
 * it reads (src/index.ts:8-10).
 */
module Policy {
  import opened Lines

  /** The key and value of the block every document body is evaluated as. */
  const Internal := "_INTERNAL_"
  const MainBlock := "MAIN_BLOCK"

  /** A block's identity: the key and value of the `BEGIN` tag that opened it. */
  datatype Block = Block(key: string, value: string)

  const Root := Block(Internal, MainBlock)

  /** One entry of `renderBlocks`: a string or an array of strings. */
  datatype Entry = Single(value: string) | Multiple(values: seq<string>)

  /** PerkdownParserSettings. */
  datatype Settings = Settings(renderBlocks: map<string, Entry>)

  /** `Array.prototype.join(",")`: how an array turns into a string. */
  function CommaJoin(values: seq<string>): string {
    JoinWith(values, ',')
  }

  /**
   * `entry == value` with JavaScript's loose equality: a string compares as
   * itself, an array as the text it converts to.
   */
  predicate LooseEquals(e: Entry, value: string): (r: bool)
    ensures e.Multiple? && |e.values| == 1 ==> (r <==> e.values[0] == value)
    ensures e == Multiple([]) ==> (r <==> value == "")
  {
    match e
    case Single(v) => v == value
    case Multiple(vs) => CommaJoin(vs) == value
  }

  /**
   * shouldRender: the root block always renders; any other block renders
   * exactly when its key has an entry that is its value, or an array that holds
   * its value or whose comma-joined text is its value.
   */
  function ShouldRender(b: Block, settings: Settings): (r: bool)
    ensures b == Root ==> r
    ensures b != Root && b.key !in settings.renderBlocks ==> !r
    ensures b != Root && b.key in settings.renderBlocks && settings.renderBlocks[b.key].Single? ==>
      (r <==> settings.renderBlocks[b.key].value == b.value)
    ensures b != Root && b.key in settings.renderBlocks && settings.renderBlocks[b.key].Multiple? ==>
      (r <==> b.value in settings.renderBlocks[b.key].values
              || CommaJoin(settings.renderBlocks[b.key].values) == b.value)
  {
    if b.key == Internal && b.value == MainBlock then true
    else if b.key in settings.renderBlocks then
      var vals := settings.renderBlocks[b.key];
      if LooseEquals(vals, b.value) then true
      else vals.Multiple? && b.value in vals.values
    else false
  }

  // ---------------------------------------------------------------------------
  // Properties of the policy.

  /** Only the entry for the block's own key is consulted. */
  lemma OnlyOwnKeyMatters(b: Block, settings: Settings, k: string, e: Entry)
    requires k != b.key
    ensures ShouldRender(b, Settings(settings.renderBlocks[k := e])) == ShouldRender(b, settings)
  {
  }

  /** A one-element array behaves exactly as the string it holds. */
  lemma SingletonArrayIsString(b: Block, settings: Settings, v: string)
    ensures ShouldRender(b, Settings(settings.renderBlocks[b.key := Multiple([v])]))
         == ShouldRender(b, Settings(settings.renderBlocks[b.key := Single(v)]))
  {
    assert CommaJoin([v]) == v;
  }

  /** An empty array admits exactly the empty value, through its empty joined text. */
  lemma EmptyArrayAdmitsEmptyValue(b: Block, settings: Settings)
    requires b != Root
    ensures ShouldRender(b, Settings(settings.renderBlocks[b.key := Multiple([])])) <==> b.value == ""
  {
  }

  /** An array admits the text of its members joined by commas, though no member is that text. */
  lemma ArrayAdmitsItsJoinedText()
    ensures ShouldRender(Block("SECTION", "A,B"), Settings(map["SECTION" := Multiple(["A", "B"])]))
    ensures !ShouldRender(Block("SECTION", "A,B"), Settings(map["SECTION" := Multiple(["A", "B", "C"])]))
  {
    assert CommaJoin(["A", "B"]) == "A,B" by {
      assert JoinWith(["B"], ',') == "B";
    }
    assert CommaJoin(["A", "B", "C"]) == "A,B,C" by {
      assert JoinWith(["C"], ',') == "C";
      assert JoinWith(["B", "C"], ',') == "B,C";
    }
  }

  /** The set form: `["A", "B"]` renders the values `A` and `B` and no value `C`. */
  lemma SetFormExample()
    ensures ShouldRender(Block("SECTION", "A"), Settings(map["SECTION" := Multiple(["A", "B"])]))
    ensures ShouldRender(Block("SECTION", "B"), Settings(map["SECTION" := Multiple(["A", "B"])]))
    ensures !ShouldRender(Block("SECTION", "C"), Settings(map["SECTION" := Multiple(["A", "B"])]))
  {
    assert CommaJoin(["A", "B"]) == "A,B" by {
      assert JoinWith(["B"], ',') == "B";
    }
  }
}
