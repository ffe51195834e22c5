/** The browser cache of the single-page application (`src/lib/storage.ts`):
    the same slot, fallbacks and defaults as the server-rendered one, but the
    code assumes it always runs in a browser. */
module SpaStorage {
  import opened Wrappers
  import opened Types
  import opened Storage

  class SpaQuestionStore {
    var slot: Slot

    constructor (slot: Slot)
      ensures this.slot == slot
    {
      this.slot := slot;
    }

    /** `getQuestions`: the stored array, or no questions for an absent,
        empty, unparsable or non-array slot. */
    function GetQuestions(): (r: seq<LocalQuestion>)
      reads this
      ensures slot.Records? ==> r == slot.qs
      ensures !slot.Records? ==> r == []
    {
      Read(slot)
    }

    /** `saveQuestion`: when the write goes through, the stored array gains
        exactly one record at the end, the question with a missing or empty
        id replaced by `freshId` and a missing timestamp by `now`. A write
        that throws leaves the slot as it was and passes the error on. */
    method SaveQuestion(q: Question, freshId: string, now: nat, write: Write) returns (thrown: Option<string>)
      modifies this
      ensures write.Written? ==> slot == Records(old(GetQuestions()) + [Complete(q, freshId, now)])
      ensures write.Written? ==> GetQuestions() == old(GetQuestions()) + [Complete(q, freshId, now)]
      ensures write.Written? ==> |GetQuestions()| == |old(GetQuestions())| + 1
      ensures write.WriteThrew? ==> slot == old(slot) && thrown == Some(write.message)
      ensures write.Written? ==> thrown == None
    {
      var questions := GetQuestions();
      var localQuestion := Complete(q, freshId, now);
      questions := questions + [localQuestion];
      if write.WriteThrew? {
        return Some(write.message);
      }
      slot := Records(questions);
      return None;
    }

    /** `clearQuestions`: afterwards there are no cached questions. */
    method ClearQuestions()
      modifies this
      ensures slot == Absent
      ensures GetQuestions() == []
    {
      slot := Absent;
    }
  }
}
