/** The records the server receives from its event and member sources.
    Only the fields the room builder and the session read are kept. */
module Meetup {

  datatype Option<+T> = None | Some(value: T)

  /** A group member's profile; `visited` is the last-visit indicator the mirror view ranks by. */
  datatype Profile = Profile(visited: int)

  datatype Member = Member(id: int, name: string, groupProfile: Profile)

  /** One entry of an event's RSVP sample. */
  datatype Rsvp = Rsvp(id: int, member: Member)

  datatype Venue = Venue(name: string)

  datatype Group = Group(urlname: string)

  /** A calendar event: the record each room wraps.
      `rsvps` is a sample of the confirmed attendees, `rsvpCount` the total count. */
  datatype Event = Event(
    id: string,
    name: string,
    description: string,
    rsvps: seq<Rsvp>,
    rsvpCount: int,
    startTime: int,
    group: Group,
    venue: Venue)
}
