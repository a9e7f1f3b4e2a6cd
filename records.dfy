/** Student records as the page receives them, and the card a page shows for each one. */
module Records {

  /** One entry of the pre-loaded student array: name.title, name.first, name.last,
      email, picture.large and registered.date, all taken verbatim. */
  datatype Student = Student(
    title: string,
    first: string,
    last: string,
    email: string,
    picture: string,
    registered: string
  )

  /** The view-model of one rendered list item: avatar source and alt text,
      the name heading, the email line and the "Joined ..." line. */
  datatype Card = Card(
    avatar: string,
    alt: string,
    heading: string,
    email: string,
    joined: string
  )

  /** The card shown for one student: the alt text is the title followed by the
      heading, the heading is first and last name separated by one blank, and the
      registration date is shown verbatim after "Joined ". */
  function CardOf(s: Student): (c: Card)
    ensures c.avatar == s.picture && c.email == s.email
    ensures c.alt == s.title + " " + c.heading
    ensures |c.heading| == |s.first| + 1 + |s.last|
    ensures c.heading[..|s.first|] == s.first && c.heading[|s.first|] == ' '
    ensures c.heading[|s.first| + 1..] == s.last
    ensures |c.joined| == 7 + |s.registered|
    ensures c.joined[..7] == "Joined " && c.joined[7..] == s.registered
  {
    var heading := s.first + " " + s.last;
    Card(s.picture, s.title + " " + s.first + " " + s.last, heading, s.email, "Joined " + s.registered)
  }

  /** The cards for a run of students, one per student, in the same order. */
  function Cards(ss: seq<Student>): (cs: seq<Card>)
  {
    seq(|ss|, k requires 0 <= k < |ss| => CardOf(ss[k]))
  }
}
