/**
 * The story schema: a story with its nested chapters, scenes and choices, the
 * defaults and validators of each, and the story's instance methods, which
 * treat the `likes` list as a set of user ids.
 */
module StoryModel {
  import opened Base
  import opened Text

  const DefaultTitle := "Once Upon a Time...."
  const DefaultSynopsis := "Our story begins in ...."
  const DefaultSceneTitle := "Scene 1"
  const DefaultSceneImage := "_defaultScene.png"
  const DefaultSceneDescription := "Please enter a description...."
  const DefaultScenePrompt := "Please enter a prompt...."
  const DefaultChoiceText := "Choice"

  // ---------------------------------------------------------------------------
  // Nested documents: what is given (`None` = left out) and what is stored
  // ---------------------------------------------------------------------------

  datatype ChoiceInput = ChoiceInput(text: Option<string>, targetChapterId: Option<ObjectId>, targetSceneId: Option<ObjectId>)
  datatype Choice = Choice(text: string, targetChapterId: Option<ObjectId>, targetSceneId: Option<ObjectId>)

  datatype SceneInput = SceneInput(
    title: Option<string>, image: Option<string>, description: Option<string>,
    prompt: Option<string>, choices: Option<seq<ChoiceInput>>)
  datatype Scene = Scene(title: string, image: string, description: string, prompt: string, choices: seq<Choice>)

  datatype ChapterInput = ChapterInput(scenes: Option<seq<SceneInput>>)
  datatype Chapter = Chapter(scenes: seq<Scene>)

  datatype StoryInput = StoryInput(
    title: Option<string>, synopsis: Option<string>, author: Option<ObjectId>,
    likes: Option<seq<ObjectId>>, publish: Option<bool>, chapters: Option<seq<ChapterInput>>)

  /** A string field with the `trim` setter and a default. */
  function TrimmedOr(given: Option<string>, default: string): string {
    if given.Some? then Trim(given.value) else default
  }

  /** A choice subdocument: the text default 'Choice'; the targets stored as given. */
  function NewChoice(input: ChoiceInput): (c: Choice)
    ensures input.text.Some? ==> c.text == input.text.value
    ensures input.text.None? ==> c.text == DefaultChoiceText
    ensures c.targetChapterId == input.targetChapterId && c.targetSceneId == input.targetSceneId
  {
    Choice(OrDefault(input.text, DefaultChoiceText), input.targetChapterId, input.targetSceneId)
  }

  /** A scene subdocument: the four string defaults, and its choices built one by one (none when left out). */
  function NewScene(input: SceneInput): (s: Scene)
    ensures input.title.Some? ==> s.title == input.title.value
    ensures input.title.None? ==> s.title == DefaultSceneTitle
    ensures input.image.Some? ==> s.image == input.image.value
    ensures input.image.None? ==> s.image == DefaultSceneImage
    ensures input.description.Some? ==> s.description == input.description.value
    ensures input.description.None? ==> s.description == DefaultSceneDescription
    ensures input.prompt.Some? ==> s.prompt == input.prompt.value
    ensures input.prompt.None? ==> s.prompt == DefaultScenePrompt
    ensures input.choices.None? ==> s.choices == []
    ensures input.choices.Some? ==>
              |s.choices| == |input.choices.value| && forall i :: 0 <= i < |s.choices| ==> s.choices[i] == NewChoice(input.choices.value[i])
  {
    var given := OrDefault(input.choices, []);
    Scene(
      OrDefault(input.title, DefaultSceneTitle),
      OrDefault(input.image, DefaultSceneImage),
      OrDefault(input.description, DefaultSceneDescription),
      OrDefault(input.prompt, DefaultScenePrompt),
      seq(|given|, i requires 0 <= i < |given| => NewChoice(given[i])))
  }

  /** A chapter subdocument: its scenes built one by one (none when left out). */
  function NewChapter(input: ChapterInput): (c: Chapter)
    ensures input.scenes.None? ==> c.scenes == []
    ensures input.scenes.Some? ==>
              |c.scenes| == |input.scenes.value| && forall i :: 0 <= i < |c.scenes| ==> c.scenes[i] == NewScene(input.scenes.value[i])
  {
    var given := OrDefault(input.scenes, []);
    Chapter(seq(|given|, i requires 0 <= i < |given| => NewScene(given[i])))
  }

  function NewChapters(given: seq<ChapterInput>): (r: seq<Chapter>)
    ensures |r| == |given|
    ensures forall i :: 0 <= i < |given| ==> r[i] == NewChapter(given[i])
  {
    seq(|given|, i requires 0 <= i < |given| => NewChapter(given[i]))
  }

  /** A subdocument given with no fields takes every schema default. */
  lemma EmptySubdocumentDefaults()
    ensures NewChoice(ChoiceInput(None, None, None)) == Choice(DefaultChoiceText, None, None)
    ensures NewScene(SceneInput(None, None, None, None, None))
            == Scene(DefaultSceneTitle, DefaultSceneImage, DefaultSceneDescription, DefaultScenePrompt, [])
    ensures NewChapter(ChapterInput(None)) == Chapter([])
  {
  }

  /** A stored subdocument read back as input: every field given. */
  function ChoiceAsInput(c: Choice): ChoiceInput {
    ChoiceInput(Some(c.text), c.targetChapterId, c.targetSceneId)
  }

  function SceneAsInput(s: Scene): SceneInput {
    SceneInput(Some(s.title), Some(s.image), Some(s.description), Some(s.prompt),
               Some(seq(|s.choices|, i requires 0 <= i < |s.choices| => ChoiceAsInput(s.choices[i]))))
  }

  function ChapterAsInput(c: Chapter): ChapterInput {
    ChapterInput(Some(seq(|c.scenes|, i requires 0 <= i < |c.scenes| => SceneAsInput(c.scenes[i]))))
  }

  /** Applying the defaults keeps every given value: building from a stored scene gives it back. */
  lemma SceneRoundTrip(s: Scene)
    ensures NewScene(SceneAsInput(s)) == s
  {
    var r := NewScene(SceneAsInput(s));
    assert |r.choices| == |s.choices|;
    forall i | 0 <= i < |s.choices| ensures r.choices[i] == s.choices[i] {
      assert r.choices[i] == NewChoice(ChoiceAsInput(s.choices[i]));
    }
  }

  /** Building from a stored chapter gives it back, scene by scene and choice by choice. */
  lemma ChapterRoundTrip(c: Chapter)
    ensures NewChapter(ChapterAsInput(c)) == c
  {
    var r := NewChapter(ChapterAsInput(c));
    assert |r.scenes| == |c.scenes|;
    forall i | 0 <= i < |c.scenes| ensures r.scenes[i] == c.scenes[i] {
      assert r.scenes[i] == NewScene(SceneAsInput(c.scenes[i]));
      SceneRoundTrip(c.scenes[i]);
    }
  }

  /** Building twice is building once: the defaults applied to stored chapters change nothing. */
  lemma NewChaptersIdempotent(given: seq<ChapterInput>)
    ensures var stored := NewChapters(given);
            NewChapters(seq(|stored|, i requires 0 <= i < |stored| => ChapterAsInput(stored[i]))) == stored
  {
    var stored := NewChapters(given);
    var again := NewChapters(seq(|stored|, i requires 0 <= i < |stored| => ChapterAsInput(stored[i])));
    forall i | 0 <= i < |stored| ensures again[i] == stored[i] {
      ChapterRoundTrip(stored[i]);
    }
  }

  // ---------------------------------------------------------------------------
  // Validators: `required` on a string fails for a missing or empty value
  // ---------------------------------------------------------------------------

  predicate ValidChoice(c: Choice) {
    c.text != "" && c.targetChapterId.Some? && c.targetSceneId.Some?
  }

  predicate ValidScene(s: Scene) {
    s.title != "" && forall i :: 0 <= i < |s.choices| ==> ValidChoice(s.choices[i])
  }

  predicate ValidChapter(c: Chapter) {
    forall i :: 0 <= i < |c.scenes| ==> ValidScene(c.scenes[i])
  }

  predicate ValidChoiceInput(c: ChoiceInput) {
    (c.text.Some? ==> c.text.value != "") && c.targetChapterId.Some? && c.targetSceneId.Some?
  }

  predicate ValidSceneInput(s: SceneInput) {
    && (s.title.Some? ==> s.title.value != "")
    && (s.choices.Some? ==> forall i :: 0 <= i < |s.choices.value| ==> ValidChoiceInput(s.choices.value[i]))
  }

  predicate ValidChapterInput(c: ChapterInput) {
    c.scenes.Some? ==> forall i :: 0 <= i < |c.scenes.value| ==> ValidSceneInput(c.scenes.value[i])
  }

  /**
   * A choice built from input is valid exactly when its text, if given, is not
   * empty and both targets are given: the text default makes the text optional.
   */
  lemma NewChoiceValidIff(input: ChoiceInput)
    ensures ValidChoice(NewChoice(input)) <==> ValidChoiceInput(input)
  {
  }

  /** A scene built from input is valid exactly when its title, if given, is not empty and every given choice is valid. */
  lemma NewSceneValidIff(input: SceneInput)
    ensures ValidScene(NewScene(input)) <==> ValidSceneInput(input)
  {
    var s := NewScene(input);
    if input.choices.Some? {
      forall i | 0 <= i < |input.choices.value|
        ensures ValidChoice(s.choices[i]) <==> ValidChoiceInput(input.choices.value[i])
      {
        NewChoiceValidIff(input.choices.value[i]);
      }
    }
  }

  /** A chapter built from input is valid exactly when every given scene is. */
  lemma NewChapterValidIff(input: ChapterInput)
    ensures ValidChapter(NewChapter(input)) <==> ValidChapterInput(input)
  {
    var c := NewChapter(input);
    if input.scenes.Some? {
      forall i | 0 <= i < |input.scenes.value|
        ensures ValidScene(c.scenes[i]) <==> ValidSceneInput(input.scenes.value[i])
      {
        NewSceneValidIff(input.scenes.value[i]);
      }
    }
  }

  // ---------------------------------------------------------------------------
  // The likes list
  // ---------------------------------------------------------------------------

  /** `likes.some(id => id.toString() === u.toString())`, scanning from the front. */
  function Liked(ids: seq<ObjectId>, u: ObjectId): (r: bool)
    ensures r <==> exists i :: 0 <= i < |ids| && ids[i] == u
  {
    if ids == [] then false
    else ids[0] == u || Liked(ids[1..], u)
  }

  /** `likes.filter(id => id.toString() !== u.toString())`. */
  function Filter(ids: seq<ObjectId>, u: ObjectId): (r: seq<ObjectId>)
    ensures u !in r
    ensures forall v :: v in r ==> v in ids
    ensures |r| <= |ids|
  {
    if ids == [] then []
    else if ids[0] == u then Filter(ids[1..], u)
    else [ids[0]] + Filter(ids[1..], u)
  }

  predicate NoDuplicates(ids: seq<ObjectId>) {
    forall i, j :: 0 <= i < j < |ids| ==> ids[i] != ids[j]
  }

  /** The likes after `addLike(u)`: `u` is appended unless it is already there. */
  function WithLike(ids: seq<ObjectId>, u: ObjectId): seq<ObjectId> {
    if Liked(ids, u) then ids else ids + [u]
  }

  /** The likes after `removeLike(u)`: every `u` is filtered out, if there is one. */
  function WithoutLike(ids: seq<ObjectId>, u: ObjectId): seq<ObjectId> {
    if Liked(ids, u) then Filter(ids, u) else ids
  }

  /** Filtering removes nothing but `u`: other ids keep their number of occurrences. */
  lemma {:induction false} FilterCounts(ids: seq<ObjectId>, u: ObjectId)
    ensures multiset(Filter(ids, u)) == multiset(ids)[u := 0]
  {
    if ids != [] {
      FilterCounts(ids[1..], u);
      assert ids == [ids[0]] + ids[1..];
    }
  }

  /** Filtering distributes over concatenation, so the ids that stay keep their relative order. */
  lemma {:induction false} FilterConcat(a: seq<ObjectId>, b: seq<ObjectId>, u: ObjectId)
    ensures Filter(a + b, u) == Filter(a, u) + Filter(b, u)
  {
    if a != [] {
      assert (a + b)[1..] == a[1..] + b;
      FilterConcat(a[1..], b, u);
    } else {
      assert a + b == b;
    }
  }

  /** Filtering out an absent id changes nothing. */
  lemma {:induction false} FilterAbsent(ids: seq<ObjectId>, u: ObjectId)
    requires u !in ids
    ensures Filter(ids, u) == ids
  {
    if ids != [] {
      FilterAbsent(ids[1..], u);
      assert [ids[0]] + ids[1..] == ids;
    }
  }

  /** Filtering keeps a duplicate-free list duplicate-free. */
  lemma {:induction false} FilterNoDuplicates(ids: seq<ObjectId>, u: ObjectId)
    requires NoDuplicates(ids)
    ensures NoDuplicates(Filter(ids, u))
  {
    if ids != [] {
      FilterNoDuplicates(ids[1..], u);
      if ids[0] != u {
        var rest := Filter(ids[1..], u);
        assert ids[0] !in ids[1..];
        assert ids[0] !in rest;
        var r := [ids[0]] + rest;
        forall i, j | 0 <= i < j < |r| ensures r[i] != r[j] {
          if i == 0 { assert r[j] == rest[j - 1]; assert r[j] in rest; }
          else { assert r[i] == rest[i - 1] && r[j] == rest[j - 1]; }
        }
      }
    }
  }

  /** After `addLike(u)` the story is liked by `u`. */
  lemma WithLikeLiked(ids: seq<ObjectId>, u: ObjectId)
    ensures Liked(WithLike(ids, u), u)
  {
    if !Liked(ids, u) {
      assert (ids + [u])[|ids|] == u;
    }
  }

  /**
   * `addLike(u)` for an absent `u` appends it after the earlier entries, which stay
   * as they were; for a present `u` it changes nothing.
   */
  lemma WithLikeShape(ids: seq<ObjectId>, u: ObjectId)
    ensures u in ids ==> WithLike(ids, u) == ids
    ensures u !in ids ==>
              |WithLike(ids, u)| == |ids| + 1 && WithLike(ids, u)[..|ids|] == ids && WithLike(ids, u)[|ids|] == u
  {
  }

  /** `addLike` is idempotent. */
  lemma WithLikeIdempotent(ids: seq<ObjectId>, u: ObjectId)
    ensures WithLike(WithLike(ids, u), u) == WithLike(ids, u)
  {
    WithLikeLiked(ids, u);
  }

  /** `addLike` never creates a duplicate. */
  lemma WithLikeNoDuplicates(ids: seq<ObjectId>, u: ObjectId)
    requires NoDuplicates(ids)
    ensures NoDuplicates(WithLike(ids, u))
  {
  }

  /**
   * After `removeLike(u)` the story is not liked by `u`, every other id keeps its
   * number of occurrences, and the list is exactly `likes` with `u` filtered out,
   * whether or not `u` was there.
   */
  lemma WithoutLikeFilters(ids: seq<ObjectId>, u: ObjectId)
    ensures WithoutLike(ids, u) == Filter(ids, u)
    ensures !Liked(WithoutLike(ids, u), u)
    ensures multiset(WithoutLike(ids, u)) == multiset(ids)[u := 0]
  {
    if !Liked(ids, u) {
      FilterAbsent(ids, u);
    }
    FilterCounts(ids, u);
  }

  /** `removeLike` for an id that has not liked the story leaves the likes as they were. */
  lemma WithoutLikeAbsent(ids: seq<ObjectId>, u: ObjectId)
    requires u !in ids
    ensures WithoutLike(ids, u) == ids
  {
  }

  /** `removeLike` never creates a duplicate. */
  lemma WithoutLikeNoDuplicates(ids: seq<ObjectId>, u: ObjectId)
    requires NoDuplicates(ids)
    ensures NoDuplicates(WithoutLike(ids, u))
  {
    if Liked(ids, u) {
      FilterNoDuplicates(ids, u);
    }
  }

  /** For an id that has not liked the story, liking then unliking restores the likes. */
  lemma AddThenRemoveRestores(ids: seq<ObjectId>, u: ObjectId)
    requires u !in ids
    ensures WithoutLike(WithLike(ids, u), u) == ids
  {
    WithLikeLiked(ids, u);
    FilterConcat(ids, [u], u);
    FilterAbsent(ids, u);
    assert Filter([u], u) == [];
  }

  // ---------------------------------------------------------------------------
  // The story document and its instance methods
  // ---------------------------------------------------------------------------

  class Story {
    var title: string
    var synopsis: string
    var author: Option<ObjectId>
    var likes: seq<ObjectId>
    var publish: bool
    var chapters: seq<Chapter>

    /**
     * `new Story(input)`: the `trim` setter on a given title and synopsis, and the
     * schema defaults on every field left out, down to each nested choice.
     */
    constructor (input: StoryInput)
      ensures title == TrimmedOr(input.title, DefaultTitle)
      ensures synopsis == TrimmedOr(input.synopsis, DefaultSynopsis)
      ensures author == input.author
      ensures likes == OrDefault(input.likes, [])
      ensures publish == OrDefault(input.publish, false)
      ensures chapters == NewChapters(OrDefault(input.chapters, []))
      // a story made from nothing but its author, as the create handler makes one
      ensures input == StoryInput(None, None, input.author, None, None, None) ==>
        && title == DefaultTitle && synopsis == DefaultSynopsis
        && likes == [] && chapters == [] && !IsPublished()
        && (SchemaValid() <==> input.author.Some?)
    {
      title := TrimmedOr(input.title, DefaultTitle);
      synopsis := TrimmedOr(input.synopsis, DefaultSynopsis);
      author := input.author;
      likes := OrDefault(input.likes, []);
      publish := OrDefault(input.publish, false);
      chapters := NewChapters(OrDefault(input.chapters, []));
    }

    /** What saving checks: the author is given and every nested document passes its validators. */
    predicate SchemaValid()
      reads this
    {
      author.Some? && forall i :: 0 <= i < |chapters| ==> ValidChapter(chapters[i])
    }

    /** `isPublished()`: the publish flag, which only the constructor sets (false unless given). */
    function IsPublished(): (r: bool)
      reads this
      ensures r <==> publish
    {
      publish
    }

    /** `isLikedBy(u)`: some id in the likes equals `u`. */
    function IsLikedBy(u: ObjectId): (r: bool)
      reads this
      ensures r <==> u in likes
    {
      Liked(likes, u)
    }

    /** `addLike(u)`: appends `u` unless it already likes the story; no other field changes. */
    method AddLike(u: ObjectId)
      modifies this`likes
      ensures likes == WithLike(old(likes), u)
      ensures IsLikedBy(u)
      ensures NoDuplicates(old(likes)) ==> NoDuplicates(likes)
    {
      WithLikeLiked(likes, u);
      if !IsLikedBy(u) {
        likes := likes + [u];
      }
    }

    /** `removeLike(u)`: if `u` likes the story, replaces the likes with the others in order; no other field changes. */
    method RemoveLike(u: ObjectId)
      modifies this`likes
      ensures likes == WithoutLike(old(likes), u)
      ensures !IsLikedBy(u)
      ensures NoDuplicates(old(likes)) ==> NoDuplicates(likes)
    {
      WithoutLikeFilters(likes, u);
      if NoDuplicates(likes) {
        WithoutLikeNoDuplicates(likes, u);
      }
      if IsLikedBy(u) {
        likes := Filter(likes, u);
      }
    }
  }

  /** The like round trip on a story object, as a caller sees it through the methods' contracts. */
  method LikeThenUnlike(s: Story, u: ObjectId)
    requires !s.IsLikedBy(u)
    modifies s`likes
    ensures s.likes == old(s.likes)
  {
    AddThenRemoveRestores(s.likes, u);
    s.AddLike(u);
    s.RemoveLike(u);
  }
}
