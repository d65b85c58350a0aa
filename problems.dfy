/** The values the streak tracker page works with: problems, the roster of
    people, and the dated entries of the history table. */
module Problems {

  /** The three difficulty tiers a problem can be tagged with. */
  datatype Difficulty = Easy | Medium | Hard

  /** One problem slot: the problem's identifier, its tier and its URL. */
  datatype Problem = Problem(number: string, difficulty: Difficulty, link: string)

  /** The slot the page starts with and appends: no identifier, easy, no URL. */
  const Blank: Problem := Problem("", Easy, "")

  /** The fixed roster; each person has a draft column and a history column. */
  datatype Person = Saketh | Aditya | Kushagra

  /** What an entry records for one person: the problems submitted that day,
      or the marker that nothing complete was submitted. */
  datatype Cell = Submitted(problems: seq<Problem>) | Missed

  /** One committed row of the history: the picked date, as a millisecond
      timestamp, and one cell per person. */
  datatype Entry = Entry(date: int, problems: map<Person, Cell>)

  datatype Option<T> = None | Some(value: T)
}
